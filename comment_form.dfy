/** The comment entry form: two controlled inputs, seeded from an `initial`
    value, and a submit handler that trims, validates and hands a payload to
    the caller. A form with a cancel action is an edit form; one without is
    the creation form. */
module CommentForm {
  import opened Text

  /** The two inputs: the comment text and the optional name. */
  datatype Fields = Fields(body: string, author: string)

  /** The `initial` value; a missing or null property is None. */
  datatype Initial = Initial(body: Option<string>, author: Option<string>)

  /** The `initial` a form gets when its caller passes none. */
  const DefaultInitial := Initial(Some(""), Some(""))

  /** What the form hands to its `onSubmit` callback. */
  datatype Payload = Payload(body: string, author: Option<string>)

  /** A rejected submit raises an alert with `alert` and calls nothing. */
  datatype Submission = Rejected(alert: string) | Submitted(payload: Payload)

  /** What a submit does: the callback call (or the rejection), and the
      inputs afterwards. */
  datatype SubmitResult = SubmitResult(submission: Submission, after: Fields)

  const BodyRequired := "Comment body is required"

  /** JavaScript's `v || ""` on a string or null. */
  function OrEmpty(v: Option<string>): string {
    if v.Some? then v.value else ""
  }

  /** The inputs seeded from `initial`, as on mount and whenever the form is
      reset: each takes its initial value, and a missing one is empty. */
  function Reset(initial: Initial): (f: Fields)
    ensures initial.body.Some? ==> f.body == initial.body.value
    ensures initial.author.Some? ==> f.author == initial.author.value
    ensures initial.body.None? ==> f.body == ""
    ensures initial.author.None? ==> f.author == ""
  {
    Fields(OrEmpty(initial.body), OrEmpty(initial.author))
  }

  /** The submit handler on inputs `f`. A blank comment text is rejected and
      nothing is called. Otherwise the callback gets the trimmed text and the
      trimmed name, the name being null when it trims to nothing; then the
      creation form (no cancel action) empties both inputs and an edit form
      leaves them as they were. */
  function Submit(f: Fields, hasCancel: bool): (r: SubmitResult)
    ensures r.submission.Rejected? <==> Blank(f.body)
    ensures r.submission.Rejected? ==> r.submission.alert == BodyRequired && r.after == f
    ensures r.submission.Submitted? ==>
              var p := r.submission.payload;
              && p.body != [] && Trimmed(p.body) && p.body == Trim(f.body)
              && (p.author.None? <==> Blank(f.author))
              && (p.author.Some? ==> p.author.value == Trim(f.author) && p.author.value != [])
    ensures r.submission.Submitted? ==> r.after == if hasCancel then f else Fields("", "")
  {
    var body := Trim(f.body);
    if body == [] then
      SubmitResult(Rejected(BodyRequired), f)
    else
      var author := Trim(f.author);
      var payload := Payload(body, if author == [] then None else Some(author));
      SubmitResult(Submitted(payload), if hasCancel then f else Reset(DefaultInitial))
  }

  /** A valid submit of the creation form leaves it as a freshly mounted one. */
  lemma CreationFormResets(f: Fields)
    requires !Blank(f.body)
    ensures Submit(f, false).after == Reset(DefaultInitial)
    ensures Submit(f, false).submission.Submitted?
  {
  }

  /** Submitting changes the inputs only when it calls back from the creation
      form. */
  lemma SubmitKeepsInputs(f: Fields, hasCancel: bool)
    ensures Submit(f, hasCancel).after != f ==>
              !hasCancel && Submit(f, hasCancel).submission.Submitted?
  {
  }

  /** The edit form opened on a comment whose text and name are already
      trimmed (the name being null or non-empty) submits, unchanged, exactly
      that text and name: seeding and submitting are inverse. */
  lemma EditFormRoundTrip(body: string, author: Option<string>)
    requires body != [] && Trimmed(body)
    requires author.Some? ==> author.value != [] && Trimmed(author.value)
    ensures Submit(Reset(Initial(Some(body), author)), true)
            == SubmitResult(Submitted(Payload(body, author)), Reset(Initial(Some(body), author)))
  {
    TrimIdempotent(body);
    if author.Some? {
      TrimIdempotent(author.value);
    }
  }

  /** Re-submitting a payload's own values yields that same payload: trimming
      and nulling the name are idempotent. */
  lemma ResubmitIsStable(f: Fields, hasCancel: bool)
    requires Submit(f, hasCancel).submission.Submitted?
    ensures var p := Submit(f, hasCancel).submission.payload;
            Submit(Fields(p.body, OrEmpty(p.author)), hasCancel).submission == Submitted(p)
  {
    var p := Submit(f, hasCancel).submission.payload;
    TrimIdempotent(p.body);
    if p.author.Some? {
      TrimIdempotent(p.author.value);
    }
  }

  /** Submitting "Nice work" with no name from the creation form calls back
      with that text and a null name, and empties the form. */
  lemma ExampleCreateSubmit()
    ensures Submit(Fields("Nice work", ""), false)
            == SubmitResult(Submitted(Payload("Nice work", None)), Fields("", ""))
  {
    var text := "Nice work";
    assert text[0] == 'N' && text[|text| - 1] == 'k';
    assert Trimmed(text);
    TrimIdempotent(text);
    assert Blank("");
  }
}
