/** src/_services/noticeService.ts: notices are written only by users whose
    role is "Admin"; anyone may read them, except the private ones, which
    only an admin may list. */
module Notices {
  import opened Common
  import opened Schema

  /** user.findUnique({id: token id}) succeeds and the role is "Admin". */
  predicate IsAdmin(users: seq<User>, tokenId: int)
  {
    var f := FindByKey(users, UserKey, tokenId);
    f.Some? && users[f.value].role == "Admin"
  }

  /** With unique user keys the gate lets exactly the admins through. */
  lemma AdminGateExact(users: seq<User>, next: nat, tokenId: int)
    requires Keyed(users, UserKey, next)
    ensures IsAdmin(users, tokenId) <==> exists i :: 0 <= i < |users| && users[i].id == tokenId && users[i].role == "Admin"
  {
    if i :| 0 <= i < |users| && users[i].id == tokenId && users[i].role == "Admin" {
      KeyedFind(users, UserKey, next, i);
    }
  }

  /** The body of noticeCreate and updateNotice; absent dates are None. */
  datatype NoticeRequest = NoticeRequest(subject: string, contents: string, startDate: Option<string>,
                                         endDate: Option<string>)

  /** `!req.subject || !req.contents`. */
  predicate Incomplete(req: NoticeRequest)
  {
    req.subject == "" || req.contents == ""
  }

  /** The row `notices.create` inserts; the status column takes its default. */
  function NewNotice(id: nat, user: nat, req: NoticeRequest, now: int, d: Defaults): Notice
  {
    Notice(id, user, req.subject, req.contents, req.startDate, req.endDate, d.noticeStatus, now)
  }

  /** noticeCreate (src/_services/noticeService.ts:34-95): 403, then 400, then 201. */
  method NoticeCreate(db: Database, req: NoticeRequest, tokenId: int, now: int)
    returns (status: int, created: Option<Notice>)
    requires db.Valid()
    modifies db`notices, db`nextNoticeId
    ensures db.Valid()
    ensures status == 403 <==> !IsAdmin(db.users, tokenId)
    ensures status == 400 <==> IsAdmin(db.users, tokenId) && Incomplete(req)
    ensures status in {201, 400, 403}
    ensures status != 201 ==> db.notices == old(db.notices) && db.nextNoticeId == old(db.nextNoticeId) && created.None?
    ensures status == 201 ==>
      tokenId >= 0 && created == Some(NewNotice(old(db.nextNoticeId), tokenId, req, now, db.defaults))
    ensures status == 201 ==> db.notices == old(db.notices) + [created.value]
    ensures status == 201 ==> db.nextNoticeId == old(db.nextNoticeId) + 1
  {
    if !IsAdmin(db.users, tokenId) {
      return 403, None;
    }
    if Incomplete(req) {
      return 400, None;
    }
    var row := NewNotice(db.nextNoticeId, tokenId, req, now, db.defaults);
    KeyedAppend(db.notices, NoticeKey, db.nextNoticeId, row);
    db.notices := db.notices + [row];
    db.nextNoticeId := db.nextNoticeId + 1;
    status, created := 201, Some(row);
  }

  /** The columns findAllNotice serialises. */
  datatype NoticeView = NoticeView(id: nat, subject: string, contents: string, startDate: Option<string>,
                                   endDate: Option<string>)

  /** The columns findNoticeById and findAllPrivateNotice serialise. */
  datatype NoticeSummary = NoticeSummary(id: nat, subject: string, contents: string)

  function ViewOf(n: Notice): NoticeView
  {
    NoticeView(n.id, n.subject, n.contents, n.startDate, n.endDate)
  }

  function SummaryOf(n: Notice): NoticeSummary
  {
    NoticeSummary(n.id, n.subject, n.contents)
  }

  /** findAllNotice (src/_services/noticeService.ts:116-152): 204 on an
      empty table, otherwise every notice, public or private, in order. */
  function FindAllNotice(notices: seq<Notice>): (r: Listing<NoticeView>)
    ensures r.status == 204 <==> |notices| == 0
    ensures r.status == 204 ==> r.data.None?
    ensures r.status != 204 ==> r.status == 200 && r.data.Some? && |r.data.value| == |notices|
    ensures r.status != 204 ==> forall i :: 0 <= i < |notices| ==>
      r.data.value[i].id == notices[i].id && r.data.value[i].subject == notices[i].subject &&
      r.data.value[i].contents == notices[i].contents
  {
    if |notices| == 0 then Listing(204, None)
    else Listing(200, Some(seq(|notices|, i requires 0 <= i < |notices| => ViewOf(notices[i]))))
  }

  /** findNoticeById (src/_services/noticeService.ts:175-213): the id is
      checked before the lookup. */
  function FindNoticeById(notices: seq<Notice>, id: int): (r: Reply<NoticeSummary>)
    ensures r.status == 400 <==> id <= 0
    ensures r.status == 404 <==> id > 0 && FindByKey(notices, NoticeKey, id).None?
    ensures r.status in {200, 400, 404}
    ensures r.body.Some? <==> r.status == 200
    ensures r.status == 200 ==>
      exists i :: 0 <= i < |notices| && notices[i].id == id && r.body == Some(SummaryOf(notices[i]))
  {
    if id <= 0 then Reply(400, None)
    else match FindByKey(notices, NoticeKey, id)
      case None => Reply(404, None)
      case Some(i) => Reply(200, Some(SummaryOf(notices[i])))
  }

  /** notices.findMany({status: "PRIVATE"}). */
  function PrivateNotices(notices: seq<Notice>): (r: seq<Notice>)
    ensures forall k :: 0 <= k < |r| ==> r[k] in notices && r[k].status == Private
    ensures forall i :: 0 <= i < |notices| && notices[i].status == Private ==> notices[i] in r
  {
    Filter(notices, (n: Notice) => n.status == Private)
  }

  /** findAllPrivateNotice (src/_services/noticeService.ts:235-285): only an
      admin may list; no private notice is a 200 with a message only. */
  function FindAllPrivateNotice(users: seq<User>, notices: seq<Notice>, tokenId: int): (r: Listing<NoticeSummary>)
    ensures r.status == 403 <==> !IsAdmin(users, tokenId)
    ensures r.status != 403 ==> r.status == 200
    ensures r.data.Some? ==> r.status == 200 && |r.data.value| > 0
    ensures r.status == 200 && r.data.None? ==> forall i :: 0 <= i < |notices| ==> notices[i].status == Public
    ensures r.data.Some? ==> forall k :: 0 <= k < |r.data.value| ==>
      exists n :: n in notices && n.status == Private && r.data.value[k] == SummaryOf(n)
  {
    if !IsAdmin(users, tokenId) then Listing(403, None)
    else
      var rows := PrivateNotices(notices);
      if |rows| == 0 then Listing(200, None)
      else
        var data := seq(|rows|, k requires 0 <= k < |rows| => SummaryOf(rows[k]));
        assert forall k :: 0 <= k < |data| ==> data[k] == SummaryOf(rows[k]) && rows[k] in notices;
        Listing(200, Some(data))
  }

  /** An admin is shown every private notice and nothing else. */
  lemma PrivateNoticesExact(users: seq<User>, notices: seq<Notice>, tokenId: int, n: Notice)
    requires IsAdmin(users, tokenId)
    ensures var r := FindAllPrivateNotice(users, notices, tokenId);
      (r.data.Some? && SummaryOf(n) in r.data.value) <==>
      exists i :: 0 <= i < |notices| && notices[i].status == Private && SummaryOf(notices[i]) == SummaryOf(n)
  {
    var rows := PrivateNotices(notices);
    var r := FindAllPrivateNotice(users, notices, tokenId);
    if i :| 0 <= i < |notices| && notices[i].status == Private && SummaryOf(notices[i]) == SummaryOf(n) {
      assert notices[i] in rows;
      var k :| 0 <= k < |rows| && rows[k] == notices[i];
      assert r.data.value[k] == SummaryOf(n);
    }
  }

  /** The columns updateNotice writes: subject and contents always, the
      dates only when the request gives them. */
  function Edited(n: Notice, data: NoticeRequest): Notice
  {
    n.(subject := data.subject, contents := data.contents,
       startDate := GivenOpt(data.startDate, n.startDate), endDate := GivenOpt(data.endDate, n.endDate))
  }

  function EditWith(data: NoticeRequest): Notice -> Notice
  {
    (n: Notice) => Edited(n, data)
  }

  /** updateNotice (src/_services/noticeService.ts:314-377): 403, then 400,
      then 404, then 200; the id itself is not range-checked. */
  method UpdateNotice(db: Database, data: NoticeRequest, noticeId: int, tokenId: int)
    returns (status: int, updated: Option<Notice>)
    requires db.Valid()
    modifies db`notices
    ensures db.Valid()
    ensures status == 403 <==> !IsAdmin(db.users, tokenId)
    ensures status == 400 <==> IsAdmin(db.users, tokenId) && Incomplete(data)
    ensures status == 404 <==>
      IsAdmin(db.users, tokenId) && !Incomplete(data) && FindByKey(old(db.notices), NoticeKey, noticeId).None?
    ensures status in {200, 400, 403, 404}
    ensures status != 200 ==> db.notices == old(db.notices) && updated.None?
    ensures status == 200 ==> db.notices == UpdateByKey(old(db.notices), NoticeKey, noticeId, EditWith(data))
    ensures status == 200 ==>
      exists i :: 0 <= i < |old(db.notices)| && old(db.notices)[i].id == noticeId &&
        updated == Some(Edited(old(db.notices)[i], data))
  {
    if !IsAdmin(db.users, tokenId) {
      return 403, None;
    }
    if Incomplete(data) {
      return 400, None;
    }
    var found := FindByKey(db.notices, NoticeKey, noticeId);
    if found.None? {
      return 404, None;
    }
    var i := found.value;
    var row := Edited(db.notices[i], data);
    KeyedUpdate(db.notices, NoticeKey, db.nextNoticeId, i, row);
    db.notices := db.notices[i := row];
    status, updated := 200, Some(row);
  }

  /** An update rewrites only the notice with that key, and of it only the
      subject, contents and dates; its key, author, status and creation time
      stay. */
  lemma UpdateNoticeFacts(notices: seq<Notice>, next: nat, noticeId: int, data: NoticeRequest)
    requires Keyed(notices, NoticeKey, next)
    ensures forall i :: 0 <= i < |notices| && notices[i].id != noticeId ==>
      UpdateByKey(notices, NoticeKey, noticeId, EditWith(data))[i] == notices[i]
    ensures forall i :: 0 <= i < |notices| && notices[i].id == noticeId ==>
      var u := UpdateByKey(notices, NoticeKey, noticeId, EditWith(data))[i];
      u.subject == data.subject && u.contents == data.contents &&
      u.id == notices[i].id && u.userId == notices[i].userId && u.status == notices[i].status &&
      u.createDate == notices[i].createDate
    ensures UpdateByKey(UpdateByKey(notices, NoticeKey, noticeId, EditWith(data)), NoticeKey, noticeId, EditWith(data)) ==
            UpdateByKey(notices, NoticeKey, noticeId, EditWith(data))
  {
    UpdateByKeyFacts(notices, NoticeKey, next, noticeId, EditWith(data), EditWith(data));
  }

  /** removeNotice (src/_services/noticeService.ts:402-457): 403, then 400
      for an id that is not positive, then 404, then the delete and 200. */
  method RemoveNotice(db: Database, tokenId: int, id: int) returns (status: int)
    requires db.Valid()
    modifies db`notices
    ensures db.Valid()
    ensures status == 403 <==> !IsAdmin(db.users, tokenId)
    ensures status == 400 <==> IsAdmin(db.users, tokenId) && id <= 0
    ensures status == 404 <==> IsAdmin(db.users, tokenId) && id > 0 && FindByKey(old(db.notices), NoticeKey, id).None?
    ensures status in {200, 400, 403, 404}
    ensures status != 200 ==> db.notices == old(db.notices)
    ensures status == 200 ==> db.notices == DeleteByKey(old(db.notices), NoticeKey, id)
    ensures status == 200 ==> forall n :: n in db.notices <==> n in old(db.notices) && n.id != id
  {
    if !IsAdmin(db.users, tokenId) {
      return 403;
    }
    if id <= 0 {
      return 400;
    }
    var found := FindByKey(db.notices, NoticeKey, id);
    if found.None? {
      return 404;
    }
    DeleteByKeyFacts(db.notices, NoticeKey, db.nextNoticeId, id);
    db.notices := RemoveAt(db.notices, found.value);
    status := 200;
  }
}
