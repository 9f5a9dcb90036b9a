/** The relational database behind the JPA repositories: one table per
    entity, each a sequence in storage order, and the last identity value
    handed out. `findById` is a search of a table, `save` of a new row
    appends it under a fresh id, and `save` of an existing row replaces it. */
module Storage {
  import opened Common
  import opened Seqs
  import opened Entities

  datatype Db = Db(
    users: seq<User>,
    items: seq<Item>,
    bookings: seq<Booking>,
    requests: seq<ItemRequest>,
    comments: seq<Comment>,
    lastId: int)
  {
    /** What the database guarantees of every stored row: the NOT NULL
        owner column is set, and every identity value was handed out. */
    ghost predicate Valid() {
      && (forall u :: u in users ==> u.id <= lastId)
      && (forall it :: it in items ==> it.owner.Some? && it.id <= lastId)
      && (forall b :: b in bookings ==> b.item.owner.Some? && b.id.Some? && b.id.value <= lastId)
      && (forall q :: q in requests ==> q.id.Some? && q.id.value <= lastId)
      && (forall c :: c in comments ==> c.id.Some? && c.id.value <= lastId)
    }
  }

  /** A service's answer together with the database after the call. */
  datatype Reply<T> = Reply(result: Result<T>, db: Db)

  function FindUser(users: seq<User>, id: int): (r: Option<User>)
    ensures r.Some? ==> r.value in users && r.value.id == id
    ensures r.None? <==> forall u :: u in users ==> u.id != id
  {
    First(users, (u: User) => u.id == id)
  }

  function FindItem(items: seq<Item>, id: int): (r: Option<Item>)
    ensures r.Some? ==> r.value in items && r.value.id == id
    ensures r.None? <==> forall it :: it in items ==> it.id != id
  {
    First(items, (it: Item) => it.id == id)
  }

  function FindBooking(bookings: seq<Booking>, id: int): (r: Option<Booking>)
    ensures r.Some? ==> r.value in bookings && r.value.id == Some(id)
    ensures r.None? <==> forall b :: b in bookings ==> b.id != Some(id)
  {
    First(bookings, (b: Booking) => b.id == Some(id))
  }

  function FindRequest(requests: seq<ItemRequest>, id: int): (r: Option<ItemRequest>)
    ensures r.Some? ==> r.value in requests && r.value.id == Some(id)
    ensures r.None? <==> forall q :: q in requests ==> q.id != Some(id)
  {
    First(requests, (q: ItemRequest) => q.id == Some(id))
  }

  /** `save` of a row that already exists: each row with its id is replaced. */
  function Replace<T>(rows: seq<T>, same: T -> bool, x: T): (r: seq<T>)
    ensures |r| == |rows|
    ensures forall i :: 0 <= i < |rows| ==> r[i] == if same(rows[i]) then x else rows[i]
  {
    seq(|rows|, i requires 0 <= i < |rows| => if same(rows[i]) then x else rows[i])
  }
}
