/** The friendships table and the queries the two backends run on it. A row records a
  * request from a sender to a receiver and its state; a pair of users appears at most
  * once in each direction (the table's unique constraint on sender and receiver).
  *
  * The queries are stated once for a user key, which is a user id (the declared
  * repository methods) or a user name (the variants the name-keyed service calls,
  * which compare the referenced users' names instead of their ids). */
module FriendshipRepository {
  import opened Common

  datatype Status = PENDING | APPROVED | REJECTED

  /** `status.name().toLowerCase()`. */
  function StatusName(s: Status): string {
    match s
    case PENDING => "pending"
    case APPROVED => "approved"
    case REJECTED => "rejected"
  }

  datatype User = User(id: int, username: string)

  /** A row; times are instants given by the caller's clock. */
  datatype Friendship = Friendship(id: int, sender: User, receiver: User, status: Status,
                                   requestedAt: int, handledAt: Option<int>, handledType: Option<string>)

  datatype Key = ById(id: int) | ByName(name: string)

  predicate Is(u: User, k: Key) {
    match k
    case ById(id) => u.id == id
    case ByName(name) => u.username == name
  }

  predicate Links(f: Friendship, a: Key, b: Key) {
    Is(f.sender, a) && Is(f.receiver, b)
  }

  predicate Involves(f: Friendship, k: Key) {
    Is(f.sender, k) || Is(f.receiver, k)
  }

  /** Row ids are distinct and no (sender, receiver) pair occurs twice. */
  predicate Unique(rows: seq<Friendship>) {
    forall i, j :: 0 <= i < j < |rows| ==>
      rows[i].id != rows[j].id && (rows[i].sender.id, rows[i].receiver.id) != (rows[j].sender.id, rows[j].receiver.id)
  }

  // ---------------------------------------------------------------------
  // Queries

  /** `findById`. */
  function FindById(rows: seq<Friendship>, id: int): (r: Option<Friendship>)
    ensures r.Some? ==> r.value in rows && r.value.id == id
    ensures r.None? ==> forall f :: f in rows ==> f.id != id
  {
    if rows == [] then None
    else if rows[0].id == id then Some(rows[0])
    else FindById(rows[1..], id)
  }

  /** `findBySenderIdAndReceiverId` (and by user names): the first row from `a` to `b`. */
  function FindPair(rows: seq<Friendship>, a: Key, b: Key): (r: Option<Friendship>)
    ensures r.Some? ==> r.value in rows && Links(r.value, a, b)
    ensures r.None? ==> forall f :: f in rows ==> !Links(f, a, b)
  {
    if rows == [] then None
    else if Links(rows[0], a, b) then Some(rows[0])
    else FindPair(rows[1..], a, b)
  }

  /** `findBetweenUsers`: the rows between the two users, in either direction. */
  function FindBetween(rows: seq<Friendship>, a: Key, b: Key): (r: seq<Friendship>) {
    Filter((f: Friendship) => Links(f, a, b) || Links(f, b, a), rows)
  }

  /** `findPendingRequestsByReceiverId`. */
  function PendingReceived(rows: seq<Friendship>, k: Key): (r: seq<Friendship>) {
    Filter((f: Friendship) => Is(f.receiver, k) && f.status == PENDING, rows)
  }

  /** `findPendingRequestsBySenderId`. */
  function PendingSent(rows: seq<Friendship>, k: Key): (r: seq<Friendship>) {
    Filter((f: Friendship) => Is(f.sender, k) && f.status == PENDING, rows)
  }

  /** `findApprovedFriendships`: approved rows in which the user takes part. */
  function Approved(rows: seq<Friendship>, k: Key): (r: seq<Friendship>) {
    Filter((f: Friendship) => Involves(f, k) && f.status == APPROVED, rows)
  }

  /** `existsFriendship`. */
  predicate ExistsFriendship(rows: seq<Friendship>, a: Key, b: Key) {
    exists i :: 0 <= i < |rows| && (Links(rows[i], a, b) || Links(rows[i], b, a)) && rows[i].status == APPROVED
  }

  /** `countFriends`. */
  function CountFriends(rows: seq<Friendship>, k: Key): (r: nat) {
    |Approved(rows, k)|
  }

  /** The user on the other side of a row from `k`. */
  function Other(f: Friendship, k: Key): User {
    if Is(f.sender, k) then f.receiver else f.sender
  }

  function OtherIds(rows: seq<Friendship>, k: Key): (r: seq<int>)
    ensures |r| == |rows|
    ensures forall i :: 0 <= i < |rows| ==> r[i] == Other(rows[i], k).id
  {
    if rows == [] then [] else [Other(rows[0], k).id] + OtherIds(rows[1..], k)
  }

  /** `findFriendIdsByUserId`: for each approved row with the user, the other party. */
  function FriendIds(rows: seq<Friendship>, k: Key): (r: seq<int>) {
    OtherIds(Approved(rows, k), k)
  }

  // ---------------------------------------------------------------------
  // Properties of the queries

  /** Under the unique constraint the lookup by sender and receiver ids has at most
    * one answer: every row between them in that direction is the one returned. */
  lemma FindPairUnique(rows: seq<Friendship>, a: int, b: int, i: int)
    requires Unique(rows) && 0 <= i < |rows| && Links(rows[i], ById(a), ById(b))
    ensures FindPair(rows, ById(a), ById(b)) == Some(rows[i])
  {
    var r := FindPair(rows, ById(a), ById(b));
    var j :| 0 <= j < |rows| && rows[j] == r.value;
  }

  /** findBetweenUsers returns exactly the rows between the two, in either direction,
    * in table order (it is a filter). */
  lemma BetweenExact(rows: seq<Friendship>, a: Key, b: Key, f: Friendship)
    ensures f in FindBetween(rows, a, b) <==> f in rows && (Links(f, a, b) || Links(f, b, a))
    ensures FindBetween(rows, a, b) == FindBetween(rows, b, a)
  {
    FilterMembership((f: Friendship) => Links(f, a, b) || Links(f, b, a), rows, f);
    BetweenSymmetric(rows, a, b);
  }

  lemma {:induction false} BetweenSymmetric(rows: seq<Friendship>, a: Key, b: Key)
    ensures FindBetween(rows, a, b) == FindBetween(rows, b, a)
  {
    if rows != [] {
      BetweenSymmetric(rows[1..], a, b);
    }
  }

  /** The pending queries return exactly the pending rows received, respectively sent,
    * by the user. */
  lemma PendingExact(rows: seq<Friendship>, k: Key, f: Friendship)
    ensures f in PendingReceived(rows, k) <==> f in rows && Is(f.receiver, k) && f.status == PENDING
    ensures f in PendingSent(rows, k) <==> f in rows && Is(f.sender, k) && f.status == PENDING
  {
    FilterMembership((f: Friendship) => Is(f.receiver, k) && f.status == PENDING, rows, f);
    FilterMembership((f: Friendship) => Is(f.sender, k) && f.status == PENDING, rows, f);
  }

  /** existsFriendship holds exactly when findBetweenUsers has an approved row. */
  lemma ExistsFriendshipIff(rows: seq<Friendship>, a: Key, b: Key)
    ensures ExistsFriendship(rows, a, b) <==> exists f :: f in FindBetween(rows, a, b) && f.status == APPROVED
  {
    if ExistsFriendship(rows, a, b) {
      var i :| 0 <= i < |rows| && (Links(rows[i], a, b) || Links(rows[i], b, a)) && rows[i].status == APPROVED;
      BetweenExact(rows, a, b, rows[i]);
    }
    if exists f :: f in FindBetween(rows, a, b) && f.status == APPROVED {
      var f :| f in FindBetween(rows, a, b) && f.status == APPROVED;
      BetweenExact(rows, a, b, f);
      var i :| 0 <= i < |rows| && rows[i] == f;
    }
  }

  /** A mutual friendship stored as two approved rows counts twice for each user. */
  lemma MutualPairCountsTwice(rows: seq<Friendship>, f: Friendship, g: Friendship, k: Key)
    requires f.status == APPROVED && g.status == APPROVED
    requires f.sender == g.receiver && f.receiver == g.sender && Is(f.sender, k)
    ensures CountFriends(rows + [f, g], k) == CountFriends(rows, k) + 2
  {
    var p := (x: Friendship) => Involves(x, k) && x.status == APPROVED;
    FilterAppend(p, rows, [f, g]);
    FilterAppend(p, [f], [g]);
    assert [f, g] == [f] + [g];
  }

  /** findFriendIdsByUserId has one id per approved row with the user, and each is the
    * id of the party that is not the user (or of the sender, when the user is on both
    * sides). */
  lemma FriendIdsAreOtherParties(rows: seq<Friendship>, k: Key, i: int)
    requires 0 <= i < |FriendIds(rows, k)|
    ensures |FriendIds(rows, k)| == CountFriends(rows, k)
    ensures Approved(rows, k)[i] in rows && Approved(rows, k)[i].status == APPROVED && Involves(Approved(rows, k)[i], k)
    ensures FriendIds(rows, k)[i] == Other(Approved(rows, k)[i], k).id
    ensures Is(Approved(rows, k)[i].sender, k) ==> FriendIds(rows, k)[i] == Approved(rows, k)[i].receiver.id
  {
    var p := (x: Friendship) => Involves(x, k) && x.status == APPROVED;
    FilterMembership(p, rows, Approved(rows, k)[i]);
  }

  // ---------------------------------------------------------------------
  // The table

  /** The rows after `save` of an entity that is already stored: its row is replaced. */
  function Update(rows: seq<Friendship>, f: Friendship): (r: seq<Friendship>)
    ensures |r| == |rows|
    ensures forall i :: 0 <= i < |rows| ==> r[i] == if rows[i].id == f.id then f else rows[i]
  {
    if rows == [] then [] else [if rows[0].id == f.id then f else rows[0]] + Update(rows[1..], f)
  }

  /** The rows after `delete` / `deleteAll`: every row whose id is listed is gone. */
  function Without(rows: seq<Friendship>, ids: set<int>): (r: seq<Friendship>)
    ensures forall f :: f in r <==> f in rows && f.id !in ids
  {
    var p := (f: Friendship) => f.id !in ids;
    assert forall f :: f in Filter(p, rows) <==> f in rows && f.id !in ids by {
      forall f {
        FilterMembership(p, rows, f);
      }
    }
    Filter(p, rows)
  }

  function Ids(rows: seq<Friendship>): (r: set<int>)
    ensures forall f :: f in rows ==> f.id in r
    ensures forall id :: id in r ==> exists f :: f in rows && f.id == id
  {
    set f | f in rows :: f.id
  }

  // ---------------------------------------------------------------------
  // The unique constraint under the table's changes

  /** Saving a row keeps the constraint when the stored row with its id, if any, has
    * the same sender and receiver. */
  lemma UniqueUpdate(rows: seq<Friendship>, f: Friendship)
    requires Unique(rows)
    requires forall i :: 0 <= i < |rows| && rows[i].id == f.id ==>
               rows[i].sender.id == f.sender.id && rows[i].receiver.id == f.receiver.id
    ensures Unique(Update(rows, f))
  {
    var r := Update(rows, f);
    forall i | 0 <= i < |r|
      ensures r[i].id == rows[i].id && r[i].sender.id == rows[i].sender.id && r[i].receiver.id == rows[i].receiver.id
    {
    }
  }

  /** Inserting a row keeps the constraint when its id and its pair are new. */
  lemma UniqueAppend(rows: seq<Friendship>, f: Friendship)
    requires Unique(rows)
    requires forall i :: 0 <= i < |rows| ==>
               rows[i].id != f.id && (rows[i].sender.id, rows[i].receiver.id) != (f.sender.id, f.receiver.id)
    ensures Unique(rows + [f])
  {
  }

  /** A row followed by rows none of which shares its id or its pair, and which among
    * themselves keep the constraint, keep it. */
  lemma UniqueCons(f: Friendship, rows: seq<Friendship>)
    requires Unique(rows)
    requires forall g :: g in rows ==> g.id != f.id && (g.sender.id, g.receiver.id) != (f.sender.id, f.receiver.id)
    ensures Unique([f] + rows)
  {
    var r := [f] + rows;
    forall i, j | 0 <= i < j < |r|
      ensures r[i].id != r[j].id && (r[i].sender.id, r[i].receiver.id) != (r[j].sender.id, r[j].receiver.id)
    {
      if i == 0 {
        assert r[j] == rows[j - 1];
      } else {
        assert r[i] == rows[i - 1] && r[j] == rows[j - 1];
      }
    }
  }

  /** Keeping some of the rows keeps the constraint. */
  lemma {:induction false} UniqueFilter(p: Friendship -> bool, rows: seq<Friendship>)
    requires Unique(rows)
    ensures Unique(Filter(p, rows))
  {
    if rows != [] {
      var tail := rows[1..];
      assert Unique(tail) by {
        forall i, j | 0 <= i < j < |tail|
          ensures tail[i].id != tail[j].id && (tail[i].sender.id, tail[i].receiver.id) != (tail[j].sender.id, tail[j].receiver.id)
        {
          assert tail[i] == rows[i + 1] && tail[j] == rows[j + 1];
        }
      }
      UniqueFilter(p, tail);
      if p(rows[0]) {
        forall g | g in Filter(p, tail)
          ensures g.id != rows[0].id && (g.sender.id, g.receiver.id) != (rows[0].sender.id, rows[0].receiver.id)
        {
          FilterMembership(p, tail, g);
          var j :| 0 <= j < |tail| && tail[j] == g;
          assert rows[j + 1] == g;
        }
        UniqueCons(rows[0], Filter(p, tail));
      }
    }
  }

  /** Deleting rows keeps every id below a bound that was above them all. */
  lemma KeptBelow(rows: seq<Friendship>, ids: set<int>, bound: int)
    requires forall i :: 0 <= i < |rows| ==> rows[i].id < bound
    ensures forall i :: 0 <= i < |Without(rows, ids)| ==> Without(rows, ids)[i].id < bound
  {
    var r := Without(rows, ids);
    forall i | 0 <= i < |r|
      ensures r[i].id < bound
    {
      assert r[i] in rows;
    }
  }

  /** Deleting rows keeps the constraint. */
  lemma UniqueWithout(rows: seq<Friendship>, ids: set<int>)
    requires Unique(rows)
    ensures Unique(Without(rows, ids))
  {
    UniqueFilter((f: Friendship) => f.id !in ids, rows);
  }

  /** The rows of the table with their generated-id counter. All row ids lie below the
    * counter. */
  class FriendshipTable {
    var rows: seq<Friendship>
    var nextId: int

    ghost predicate Valid()
      reads this
    {
      Unique(rows) && forall i :: 0 <= i < |rows| ==> rows[i].id < nextId
    }

    constructor (rows: seq<Friendship>, nextId: int)
      requires Unique(rows) && forall i :: 0 <= i < |rows| ==> rows[i].id < nextId
      ensures Valid() && this.rows == rows && this.nextId == nextId
    {
      this.rows, this.nextId := rows, nextId;
    }

    /** `save` of an entity that has an id. */
    method SaveExisting(f: Friendship)
      modifies this
      ensures rows == Update(old(rows), f) && nextId == old(nextId)
      ensures old(Valid()) && (forall i :: 0 <= i < |old(rows)| && old(rows)[i].id == f.id ==>
                                 old(rows)[i].sender.id == f.sender.id && old(rows)[i].receiver.id == f.receiver.id)
              ==> Valid()
    {
      if Valid() && (forall i :: 0 <= i < |rows| && rows[i].id == f.id ==>
                       rows[i].sender.id == f.sender.id && rows[i].receiver.id == f.receiver.id) {
        UniqueUpdate(rows, f);
      }
      rows := Update(rows, f);
    }

    /** `save` of a new entity: it is inserted under a fresh id, which is returned. */
    method Insert(sender: User, receiver: User, status: Status, now: int,
                  handledAt: Option<int>, handledType: Option<string>) returns (saved: Friendship)
      modifies this
      ensures saved == Friendship(old(nextId), sender, receiver, status, now, handledAt, handledType)
      ensures rows == old(rows) + [saved] && nextId == old(nextId) + 1
      ensures old(Valid()) && (forall g :: g in old(rows) ==> (g.sender.id, g.receiver.id) != (sender.id, receiver.id))
              ==> Valid()
    {
      saved := Friendship(nextId, sender, receiver, status, now, handledAt, handledType);
      rows := rows + [saved];
      nextId := nextId + 1;
    }

    /** The rollback of a transaction that fails: the rows it started from come back.
      * Ids already handed out stay used. */
    method Rollback(snapshot: seq<Friendship>)
      modifies this
      ensures rows == snapshot && nextId == old(nextId)
      ensures Unique(snapshot) && (forall i :: 0 <= i < |snapshot| ==> snapshot[i].id < nextId) ==> Valid()
    {
      rows := snapshot;
    }

    method Delete(id: int)
      modifies this
      ensures rows == Without(old(rows), {id}) && nextId == old(nextId)
      ensures old(Valid()) ==> Valid()
    {
      if Valid() {
        UniqueWithout(rows, {id});
        KeptBelow(rows, {id}, nextId);
      }
      rows := Without(rows, {id});
    }

    method DeleteAll(fs: seq<Friendship>)
      modifies this
      ensures rows == Without(old(rows), Ids(fs)) && nextId == old(nextId)
      ensures old(Valid()) ==> Valid()
    {
      if Valid() {
        UniqueWithout(rows, Ids(fs));
        KeptBelow(rows, Ids(fs), nextId);
      }
      rows := Without(rows, Ids(fs));
    }
  }

  /** Deleting the rows between two users leaves no row between them and every
    * other row in place. */
  lemma DeleteBetweenExact(rows: seq<Friendship>, a: Key, b: Key, f: Friendship)
    requires Unique(rows)
    ensures f in Without(rows, Ids(FindBetween(rows, a, b))) <==> f in rows && !(Links(f, a, b) || Links(f, b, a))
  {
    var p := (x: Friendship) => x.id !in Ids(FindBetween(rows, a, b));
    FilterMembership(p, rows, f);
    if f in rows && f.id in Ids(FindBetween(rows, a, b)) {
      var g :| g in FindBetween(rows, a, b) && g.id == f.id;
      BetweenExact(rows, a, b, g);
      var i :| 0 <= i < |rows| && rows[i] == f;
      var j :| 0 <= j < |rows| && rows[j] == g;
      assert i == j;
    }
    if f in rows && (Links(f, a, b) || Links(f, b, a)) {
      BetweenExact(rows, a, b, f);
    }
  }
}
