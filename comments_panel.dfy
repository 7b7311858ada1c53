/** The comments panel of one task: the list it shows, the marker of the
    comment whose edit form is open, the loading flag and the load error. Each
    handler takes the outcome of its request as a parameter; an alert is
    returned as the text it would show, and a confirmation dialog is the
    user's answer passed in. */
module CommentsPanel {
  import opened Text
  import opened Comments
  import opened Responses

  class Panel {
    var comments: seq<Comment>
    var editingId: Option<CommentId>
    var loading: bool
    var error: Option<string>

    /** A freshly mounted panel: no comments, no edit form open, not loading,
        no error. */
    constructor ()
      ensures comments == [] && editingId == None && !loading && error == None
    {
      comments := [];
      editingId := None;
      loading := false;
      error := None;
    }

    /** The start of a load: the loading flag goes up and the error is
        cleared; the list stays visible. */
    method StartLoad()
      modifies this`loading, this`error
      ensures loading && error == None
      ensures comments == old(comments) && editingId == old(editingId)
    {
      loading := true;
      error := None;
    }

    /** The end of a load. A parsed success replaces the list verbatim; any
        failure records its message and keeps the previous list. Either way
        the loading flag goes down. */
    method FinishLoad(response: Response<seq<Comment>>)
      modifies this`comments, this`loading, this`error
      ensures !loading && editingId == old(editingId)
      ensures Succeeded(response) ==> comments == response.body.value && error == old(error)
      ensures !Succeeded(response) ==> comments == old(comments) && error == LoadError(response)
    {
      var failure := LoadError(response);
      if failure.None? {
        comments := response.body.value;
      } else {
        error := failure;
      }
      loading := false;
    }

    /** A whole load: after it, the panel shows the server's list and no
        error, or its old list and the failure's message. A status the server
        rejects gives a message carrying that status. */
    method Load(response: Response<seq<Comment>>)
      modifies this`comments, this`loading, this`error
      ensures !loading && editingId == old(editingId)
      ensures Succeeded(response) ==> comments == response.body.value && error == None
      ensures !Succeeded(response) ==> comments == old(comments) && error == LoadError(response) && error.Some?
      ensures response.NotOk? ==> error == Some(StatusMessage("load comments", response.status))
    {
      StartLoad();
      FinishLoad(response);
    }

    /** Adding a comment. A parsed success appends the returned record; any
        failure leaves the panel as it was and returns the alert's text. */
    method AddComment(response: Response<Comment>) returns (alert: Option<string>)
      modifies this`comments
      ensures Succeeded(response) ==> comments == Append(old(comments), response.body.value) && alert == None
      ensures !Succeeded(response) ==>
                comments == old(comments) && alert == Some("Error adding comment: " + AddError(response).value)
      ensures editingId == old(editingId) && loading == old(loading) && error == old(error)
    {
      var failure := AddError(response);
      if failure.None? {
        comments := Append(comments, response.body.value);
        alert := None;
      } else {
        alert := Some("Error adding comment: " + failure.value);
      }
    }

    /** Editing comment `id`. A parsed success puts the returned record in
        place of every entry with that id and closes the edit form; any
        failure leaves the panel as it was, the edit form open for a retry,
        and returns the alert's text. */
    method EditComment(id: CommentId, response: Response<Comment>) returns (alert: Option<string>)
      modifies this`comments, this`editingId
      ensures Succeeded(response) ==>
                comments == ReplaceById(old(comments), id, response.body.value) && editingId == None && alert == None
      ensures !Succeeded(response) ==>
                comments == old(comments) && editingId == old(editingId)
                && alert == Some("Error editing comment: " + EditError(response).value)
      ensures loading == old(loading) && error == old(error)
    {
      var failure := EditError(response);
      if failure.None? {
        comments := ReplaceById(comments, id, response.body.value);
        editingId := None;
        alert := None;
      } else {
        alert := Some("Error editing comment: " + failure.value);
      }
    }

    /** Deleting comment `id` after asking the user. Declined, no request is
        sent and nothing changes. Confirmed, a success drops every entry with
        that id and a failure leaves the panel as it was and returns the
        alert's text. */
    method DeleteComment(id: CommentId, confirmed: bool, response: Response<()>) returns (sent: bool, alert: Option<string>)
      modifies this`comments
      ensures sent == confirmed
      ensures !confirmed ==> comments == old(comments) && alert == None
      ensures confirmed && response.Ok? ==> comments == RemoveById(old(comments), id) && alert == None
      ensures confirmed && !response.Ok? ==>
                comments == old(comments) && alert == Some("Error deleting comment: " + DeleteError(response).value)
      ensures editingId == old(editingId) && loading == old(loading) && error == old(error)
    {
      if !confirmed {
        return false, None;
      }
      sent := true;
      var failure := DeleteError(response);
      if failure.None? {
        comments := RemoveById(comments, id);
        alert := None;
      } else {
        alert := Some("Error deleting comment: " + failure.value);
      }
    }

    /** The Edit button of comment `id`: its edit form opens, and any other
        open edit form closes. */
    method StartEdit(id: CommentId)
      modifies this`editingId
      ensures editingId == Some(id)
      ensures forall c :: c in comments ==> (ShowsEditForm(editingId, c) <==> c.id == id)
      ensures comments == old(comments) && loading == old(loading) && error == old(error)
    {
      editingId := Some(id);
    }

    /** The Cancel button of the open edit form: no edit form is open. */
    method CancelEdit()
      modifies this`editingId
      ensures editingId == None
      ensures forall c :: c in comments ==> !ShowsEditForm(editingId, c)
      ensures comments == old(comments) && loading == old(loading) && error == old(error)
    {
      editingId := None;
    }
  }

  /** The walk-through of a task with no comments: a comment is created and
      edited; a delete of it is declined, a confirmed delete fails, and a
      second confirmed delete succeeds and leaves the list empty. */
  method ExampleSession()
  {
    var panel := new Panel();
    panel.Load(Ok(200, Json([])));
    assert panel.comments == [] && panel.error == None;

    var created := Comment(7, "Nice work", None, "2024-01-01T00:00:00Z");
    var alert := panel.AddComment(Ok(201, Json(created)));
    assert panel.comments == [created] && alert == None;

    panel.StartEdit(7);
    var updated := Comment(7, "Updated", Some("Sam"), created.createdAt);
    alert := panel.EditComment(7, Ok(200, Json(updated)));
    assert panel.comments == [updated] && panel.editingId == None;

    var sent;
    sent, alert := panel.DeleteComment(7, false, Ok(204, Json(())));
    assert !sent && panel.comments == [updated];

    sent, alert := panel.DeleteComment(7, true, NotOk(500, Malformed("")));
    assert sent && panel.comments == [updated];
    assert alert == Some("Error deleting comment: " + StatusMessage("delete comment", 500));

    sent, alert := panel.DeleteComment(7, true, Ok(200, Json(())));
    assert sent && alert == None && panel.comments == [];
  }
}
