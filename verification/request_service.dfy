/** ItemRequestServiceImpl: requests for items nobody offers yet, and the
    items offered in answer, grouped by the request they answer. */
module RequestService {
  import opened Common
  import opened Seqs
  import opened Entities
  import opened Dtos
  import opened Storage
  import opened ItemMapper
  import opened ItemRepository
  import opened RequestMapper

  function CreatedOf(q: ItemRequest): Time { q.created }

  /** `findAllByRequestorIdOrderByCreatedDesc`. */
  function RequestsOf(requests: seq<ItemRequest>, userId: int): (r: seq<ItemRequest>)
    ensures Selects(requests, r, (q: ItemRequest) => q.requestor.id == userId)
    ensures SortedDesc(r, CreatedOf)
  {
    SortDesc(Filter(requests, (q: ItemRequest) => q.requestor.id == userId), CreatedOf)
  }

  /** `findAllByRequestorIdNotOrderByCreatedDesc`. */
  function RequestsOfOthers(requests: seq<ItemRequest>, userId: int): (r: seq<ItemRequest>)
    ensures Selects(requests, r, (q: ItemRequest) => q.requestor.id != userId)
    ensures SortedDesc(r, CreatedOf)
  {
    SortDesc(Filter(requests, (q: ItemRequest) => q.requestor.id != userId), CreatedOf)
  }

  /** Items that can be rendered as answers: each names a request and has an owner. */
  predicate Answerable(answers: seq<Item>) {
    forall i :: 0 <= i < |answers| ==> answers[i].request.Some? && answers[i].owner.Some?
  }

  /** The loop of `getAnswersByRequests`: each answer's short form is added
      to the set under its request id, the set created on first use. */
  function GroupAnswers(answers: seq<Item>): (m: map<int, set<ItemAnswer>>)
    requires Answerable(answers)
  {
    if |answers| == 0 then map[]
    else
      var n := |answers| - 1;
      var m := GroupAnswers(answers[..n]);
      var k := answers[n].request.value;
      m[k := (if k in m then m[k] else {}) + {MapToItemDtoShort(answers[n])}]
  }

  /** The short forms of the answers to request `k`. */
  function AnswersTo(answers: seq<Item>, k: int): (r: set<ItemAnswer>)
    requires Answerable(answers)
    ensures forall i :: 0 <= i < |answers| && answers[i].request == Some(k) ==> MapToItemDtoShort(answers[i]) in r
    ensures forall a :: a in r ==>
              exists i :: 0 <= i < |answers| && answers[i].request == Some(k) && a == MapToItemDtoShort(answers[i])
  {
    set i | 0 <= i < |answers| && answers[i].request == Some(k) :: MapToItemDtoShort(answers[i])
  }

  /** Every answer sits in exactly the set keyed by its own request id, and
      the keys are the request ids the answers name. */
  lemma {:induction false} GroupAnswersIsGrouping(answers: seq<Item>, k: int)
    requires Answerable(answers)
    ensures k in GroupAnswers(answers) <==> exists i :: 0 <= i < |answers| && answers[i].request == Some(k)
    ensures k in GroupAnswers(answers) ==> GroupAnswers(answers)[k] == AnswersTo(answers, k)
  {
    if |answers| > 0 {
      var n := |answers| - 1;
      var prefix := answers[..n];
      assert Answerable(prefix);
      GroupAnswersIsGrouping(prefix, k);
      var m := GroupAnswers(prefix);
      var key := answers[n].request.value;
      assert GroupAnswers(answers) == m[key := (if key in m then m[key] else {}) + {MapToItemDtoShort(answers[n])}];
      if k in GroupAnswers(answers) {
        var all := AnswersTo(answers, k);
        var before := if k in m then m[k] else {};
        assert before == AnswersTo(prefix, k) by {
          if k !in m {
            assert forall i :: 0 <= i < n ==> prefix[i].request != Some(k);
          }
        }
        if key == k {
          assert all == before + {MapToItemDtoShort(answers[n])};
        } else {
          assert all == before;
        }
      }
    }
  }

  /** `Map.get`: null for an absent key. */
  function AnswerSet(m: map<int, set<ItemAnswer>>, k: int): Option<set<ItemAnswer>> {
    if k in m then Some(m[k]) else None
  }

  /** The ids of requests as the repository returned them; stored requests have ids. */
  function RequestIds(requests: seq<ItemRequest>): (r: seq<int>)
    requires forall i :: 0 <= i < |requests| ==> requests[i].id.Some?
    ensures |r| == |requests|
    ensures forall i :: 0 <= i < |requests| ==> Some(r[i]) == requests[i].id
  {
    seq(|requests|, i requires 0 <= i < |requests| => requests[i].id.value)
  }

  /** The available stored items answering request `k`, in short form, or
      null when there are none. */
  function AnswersFor(db: Db, k: int): (r: Option<set<ItemAnswer>>)
    ensures r.Some? ==> r.value != {}
  {
    var s := StoredAnswersTo(db.items, k);
    if s == {} then None else Some(s)
  }

  /** The repository's answers are stored, answerable items. */
  lemma AnswersAreStored(db: Db, ids: seq<int>)
    requires db.Valid()
    ensures var answers := FindAllByItemRequestId(db.items, ids);
            && Answerable(answers)
            && forall it :: it in answers <==> it in db.items && AnswersOneOf(it, ids)
  {
    var answers := FindAllByItemRequestId(db.items, ids);
    SelectsMembers(db.items, answers, (it: Item) => AnswersOneOf(it, ids));
    forall i | 0 <= i < |answers| ensures answers[i].request.Some? && answers[i].owner.Some? {
      assert answers[i] in answers;
    }
  }

  /** The short forms of the available items of `items` answering `k`. */
  function StoredAnswersTo(items: seq<Item>, k: int): (r: set<ItemAnswer>)
  {
    set it | it in items && it.owner.Some? && it.available && it.request == Some(k) :: MapToItemDtoShort(it)
  }

  lemma ListedAnswersAreStored(items: seq<Item>, ids: seq<int>, k: int)
    requires Answerable(FindAllByItemRequestId(items, ids))
    ensures AnswersTo(FindAllByItemRequestId(items, ids), k) <= StoredAnswersTo(items, k)
  {
    var answers := FindAllByItemRequestId(items, ids);
    SelectsPointwise(items, answers, (it: Item) => AnswersOneOf(it, ids));
    forall a | a in AnswersTo(answers, k) ensures a in StoredAnswersTo(items, k) {
      var i :| 0 <= i < |answers| && answers[i].request == Some(k) && a == MapToItemDtoShort(answers[i]);
      var it := answers[i];
      assert it in items && it.owner.Some? && it.available && it.request == Some(k);
    }
  }

  lemma StoredAnswersAreListed(items: seq<Item>, ids: seq<int>, k: int)
    requires k in ids
    requires Answerable(FindAllByItemRequestId(items, ids))
    ensures StoredAnswersTo(items, k) <= AnswersTo(FindAllByItemRequestId(items, ids), k)
  {
    var answers := FindAllByItemRequestId(items, ids);
    SelectsMembers(items, answers, (it: Item) => AnswersOneOf(it, ids));
    forall a | a in StoredAnswersTo(items, k) ensures a in AnswersTo(answers, k) {
      var it :| it in items && it.owner.Some? && it.available && it.request == Some(k) && a == MapToItemDtoShort(it);
      assert AnswersOneOf(it, ids);
      var i :| 0 <= i < |answers| && answers[i] == it;
    }
  }

  /** `getAnswersByRequests`, looked up for one of the requests it was given. */
  lemma AnswersByRequests(db: Db, ids: seq<int>, k: int)
    requires db.Valid() && k in ids
    ensures var answers := FindAllByItemRequestId(db.items, ids);
            Answerable(answers) && AnswerSet(GroupAnswers(answers), k) == AnswersFor(db, k)
  {
    var answers := FindAllByItemRequestId(db.items, ids);
    AnswersAreStored(db, ids);
    var groups := GroupAnswers(answers);
    var listed := AnswersTo(answers, k);
    GroupAnswersIsGrouping(answers, k);
    ListedAnswersAreStored(db.items, ids, k);
    StoredAnswersAreListed(db.items, ids, k);
    assert listed == StoredAnswersTo(db.items, k);
    if k in groups {
      var i :| 0 <= i < |answers| && answers[i].request == Some(k);
      assert MapToItemDtoShort(answers[i]) in listed;
      assert AnswerSet(groups, k) == Some(listed);
    } else {
      assert forall i :: 0 <= i < |answers| ==> answers[i].request != Some(k);
      assert listed == {};
    }
  }

  /** `addRequest`: the caller must exist; the request is saved under a
      fresh id and returned with an empty answer set. */
  function AddRequest(db: Db, userId: int, req: NewWishRequest, now: Time, fmt: Time -> string): (out: Reply<ItemRequestDto>)
    requires db.Valid()
    ensures out.db.Valid()
    ensures out.result.Err? <==> FindUser(db.users, userId).None?
    ensures out.result.Err? ==> out.result.error == NotFound && out.db == db
    ensures out.result.Ok? ==>
              var q := ItemRequest(Some(out.db.lastId), FindUser(db.users, userId).value, req.description, now);
              && out.db.(requests := db.requests, lastId := db.lastId) == db
              && out.db.requests == db.requests + [q]
              && (forall x :: x in db.requests ==> x.id != Some(out.db.lastId))
              && out.result.value.id == Some(out.db.lastId) && out.result.value.items == Some({})
              && out.result.value.description == req.description && out.result.value.created == fmt(now)
  {
    match FindUser(db.users, userId)
    case None => Reply(Err(NotFound), db)
    case Some(requestor) =>
      var saved := MapToItemRequest(req, requestor, now).(id := Some(db.lastId + 1));
      var db' := db.(requests := db.requests + [saved], lastId := db.lastId + 1);
      assert db'.Valid();
      Reply(Ok(MapToItemRequestDto(saved, Some({}), fmt)), db')
  }

  /** `getRequestsByRequestor`: the caller's requests, newest first, each
      with its available answers, or a null set when it has none. */
  function GetRequestsByRequestor(db: Db, userId: int, fmt: Time -> string): (r: Result<seq<ItemRequestDto>>)
    requires db.Valid()
    ensures r.Err? <==> FindUser(db.users, userId).None?
    ensures r.Err? ==> r.error == NotFound
    ensures r.Ok? ==>
              var rows := RequestsOf(db.requests, userId);
              && |r.value| == |rows|
              && forall i :: 0 <= i < |rows| ==>
                   && rows[i].id.Some?
                   && r.value[i] == MapToItemRequestDto(rows[i], AnswersFor(db, rows[i].id.value), fmt)
  {
    match FindUser(db.users, userId)
    case None => Err(NotFound)
    case Some(_) =>
      var rows := RequestsOf(db.requests, userId);
      SelectsPointwise(db.requests, rows, (q: ItemRequest) => q.requestor.id == userId);
      var ids := RequestIds(rows);
      var answers := FindAllByItemRequestId(db.items, ids);
      AnswersAreStored(db, ids);
      var groups := GroupAnswers(answers);
      var r := seq(|rows|, i requires 0 <= i < |rows| => MapToItemRequestDto(rows[i], AnswerSet(groups, ids[i]), fmt));
      forall i | 0 <= i < |rows|
        ensures r[i] == MapToItemRequestDto(rows[i], AnswersFor(db, rows[i].id.value), fmt)
      {
        AnswersByRequests(db, ids, ids[i]);
      }
      Ok(r)
  }

  /** `getAll`: everyone else's requests, newest first, each with an empty
      answer set. */
  function GetAll(db: Db, userId: int, fmt: Time -> string): (r: Result<seq<ItemRequestDto>>)
    ensures r.Err? <==> FindUser(db.users, userId).None?
    ensures r.Err? ==> r.error == NotFound
    ensures r.Ok? ==>
              var rows := RequestsOfOthers(db.requests, userId);
              && |r.value| == |rows|
              && forall i :: 0 <= i < |rows| ==>
                   && r.value[i].id == rows[i].id && r.value[i].requestor.id != userId
                   && r.value[i].items == Some({})
  {
    match FindUser(db.users, userId)
    case None => Err(NotFound)
    case Some(_) =>
      var rows := RequestsOfOthers(db.requests, userId);
      SelectsPointwise(db.requests, rows, (q: ItemRequest) => q.requestor.id != userId);
      Ok(seq(|rows|, i requires 0 <= i < |rows| => MapToItemRequestDto(rows[i], Some({}), fmt)))
  }

  /** `getRequest`: the caller, then the request must exist; its answers are
      the available items answering it, or a null set. */
  function GetRequest(db: Db, userId: int, requestId: int, fmt: Time -> string): (r: Result<ItemRequestDto>)
    requires db.Valid()
    ensures r.Err? <==> FindUser(db.users, userId).None? || FindRequest(db.requests, requestId).None?
    ensures r.Err? ==> r.error == NotFound
    ensures r.Ok? ==>
              r.value == MapToItemRequestDto(FindRequest(db.requests, requestId).value, AnswersFor(db, requestId), fmt)
  {
    match FindUser(db.users, userId)
    case None => Err(NotFound)
    case Some(_) =>
      match FindRequest(db.requests, requestId)
      case None => Err(NotFound)
      case Some(q) =>
        var ids := RequestIds([q]);
        assert ids[0] == requestId;
        var answers := FindAllByItemRequestId(db.items, ids);
        AnswersByRequests(db, ids, requestId);
        Ok(MapToItemRequestDto(q, AnswerSet(GroupAnswers(answers), requestId), fmt))
  }

  /** A request's answer set is null exactly when no stored item is
      available and offered in answer to it. */
  lemma NoAvailableAnswerIsNull(db: Db, k: int)
    requires db.Valid()
    ensures AnswersFor(db, k).None? <==> forall it :: it in db.items ==> !(it.available && it.request == Some(k))
  {
    if it :| it in db.items && it.available && it.request == Some(k) {
      assert MapToItemDtoShort(it) in StoredAnswersTo(db.items, k);
    }
  }
}
