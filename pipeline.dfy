/** Properties that span components: the records the mail parser writes, as
    the release list decodes them, and the session as one handler leaves it for
    the next. */
module Pipeline {
  import opened Wrappers
  import opened Dynamo
  import MailParser
  import ReleaseList
  import opened Auth

  /** A record written by `insert_data` decodes without error: an artist that
      was not found (the null marker, which has no `S`) reads back as null, a
      non-empty artist reads back unchanged, and so does every other non-empty
      field. */
  lemma WrittenReleaseDecodes(d: MailParser.MailData)
    ensures ReleaseList.DecodeRelease(MailParser.ToItem(d)).Ok?
    ensures ReleaseList.DecodeRelease(MailParser.ToItem(d)).value
         == ReleaseList.Release(OrNull(d.artist), OrNull(Some(d.date)), OrNull(Some(d.labelName)),
                                OrNull(Some(d.link)), OrNull(Some(d.coverLink)), OrNull(Some(d.title)))
    ensures d.artist.None? ==> ReleaseList.DecodeRelease(MailParser.ToItem(d)).value.artist.None?
    ensures d.artist.Some? && d.artist.value != "" ==>
      ReleaseList.DecodeRelease(MailParser.ToItem(d)).value.artist == d.artist
  {
    var item := MailParser.ToItem(d);
    assert ReleaseList.ReleaseKeys <= item.Keys;
  }

  /** When every stored record was written by the mail parser, the list
      endpoint answers with all of them, latest first. */
  lemma WrittenReleasesList(query: string -> Option<seq<Item>>, stamp: Option<string> -> int,
                            written: seq<MailParser.MailData>)
    requires query(ReleaseList.OwnerAddress) == Some(seq(|written|, i requires 0 <= i < |written| => MailParser.ToItem(written[i])))
    ensures ReleaseList.ListHandler(query, stamp).Listed?
    ensures |ReleaseList.ListHandler(query, stamp).releases| == |written|
  {
    var items := query(ReleaseList.OwnerAddress).value;
    forall i | 0 <= i < |items| ensures ReleaseList.DecodeRelease(items[i]).Ok? {
      WrittenReleaseDecodes(written[i]);
    }
  }

  /** After a logout that succeeded, the same session no longer passes `checkSession`. */
  method LogoutThenCheckSession(session: Session) returns (out: Reply, check: Reply)
    modifies session
    ensures old(session.user).Some? <==> out.status == 200
    ensures out.status == 200 ==> check == Reply(401, None)
  {
    out := Logout(session);
    check := CheckSession(session.user);
  }

  /** After a login that succeeded, `checkSession` reports the email that logged in. */
  method LoginThenCheckSession(session: Session, body: LoginBody, query: string -> Option<seq<Item>>,
                               verify: (string, string, string) -> bool, salt: string)
    returns (out: LoginOutcome, check: Reply)
    modifies session
    ensures out == LoginDecision(body, query, verify, salt)
    ensures out.Answer? && out.reply.status == 200 ==>
      check == Reply(200, Some(User(body.email.value))) && check == out.reply
    ensures !(out.Answer? && out.reply.status == 200) ==> check == CheckSession(old(session.user))
  {
    out := HandleLogin(session, body, query, verify, salt);
    check := CheckSession(session.user);
  }
}
