/** The blog settings handlers, and the route that puts the admin guard in
    front of the update. */
module BlogSettingsController {
  import opened Wrappers
  import opened Js
  import opened UserModel
  import opened BlogSettingsModel
  import opened SessionStore
  import opened Http
  import opened AdminGuard

  const InvalidSettings: Response := Response(UnprocessableContent, ErrorJson("Invalid settings."))

  /** `getBlogSettings`: the stored document, or a server error when there
      is none. */
  function GetBlogSettings(store: BlogSettingsCollection): (r: Response)
    reads store
    ensures store.doc.None? <==> r == ServerError
    ensures store.doc.Some? ==> r == Response(OK, SettingsJson(store.doc.value))
  {
    match store.doc
    case None => ServerError
    case Some(s) => Response(OK, SettingsJson(s))
  }

  /** What `changeBlogSettings` answers and leaves stored, given the stored
      document before the request. */
  ghost predicate ChangeOutcome(before: Option<Settings>, body: SettingsBody, r: Response, after: Option<Settings>) {
    if !IsIBlogSettings(body) then
      r == InvalidSettings && after == before
    else if before.None? then
      r == ServerError && after == None
    else
      var updated := Apply(before.value, body);
      if SchemaAccepts(updated) then
        r == Response(OK, SettingsJson(updated)) && after == Some(updated)
      else
        r == ServerError && after == before
  }

  /** `changeBlogSettings`. The body's shape is checked before the document
      is looked up; a body the check lets through can still be refused by
      the schema when the document is saved. */
  method ChangeBlogSettings(store: BlogSettingsCollection, body: SettingsBody) returns (r: Response)
    modifies store
    ensures ChangeOutcome(old(store.doc), body, r, store.doc)
    ensures r.Response? && r.status == OK ==> r == GetBlogSettings(store)
  {
    if !IsIBlogSettings(body) {
      return InvalidSettings;
    }

    if store.doc.None? {
      return ServerError;
    }

    var updated := Apply(store.doc.value, body);
    var saved := store.Save(updated);
    if !saved {
      return ServerError;
    }
    r := Response(OK, SettingsJson(updated));
  }

  /** `PATCH /settings` as wired: `checkIfAdmin` as written runs first, and
      the handler only when it passes. A session that holds no id is let
      through when the first stored user is an admin. */
  method PatchBlogSettingsAsWritten(users: UserCollection, session: Session, store: BlogSettingsCollection, body: SettingsBody)
    returns (r: Response)
    modifies store
    ensures CheckIfAdminAsWritten(users.rows, session.userId).Reject? ==>
      r == CheckIfAdminAsWritten(users.rows, session.userId).response && store.doc == old(store.doc)
    ensures CheckIfAdminAsWritten(users.rows, session.userId).Next? ==> ChangeOutcome(old(store.doc), body, r, store.doc)
  {
    var guard := CheckIfAdminAsWritten(users.rows, session.userId);
    if guard.Reject? {
      return guard.response;
    }
    r := ChangeBlogSettings(store, body);
  }

  /** `PATCH /settings` with the corrected `checkIfAdmin`: the handler runs
      only for a session naming a stored admin. */
  method PatchBlogSettings(users: UserCollection, session: Session, store: BlogSettingsCollection, body: SettingsBody)
    returns (r: Response)
    modifies store
    ensures CheckIfAdmin(users.rows, session.userId).Reject? ==>
      r == CheckIfAdmin(users.rows, session.userId).response && store.doc == old(store.doc)
    ensures CheckIfAdmin(users.rows, session.userId).Next? ==> ChangeOutcome(old(store.doc), body, r, store.doc)
    ensures r.Response? && r.status == OK ==>
      exists i :: 0 <= i < |users.rows| && session.userId == Defined(users.rows[i].id) && users.rows[i].admin
  {
    var guard := CheckIfAdmin(users.rows, session.userId);
    if guard.Reject? {
      return guard.response;
    }
    r := ChangeBlogSettings(store, body);
  }
}
