/** The shared table of restricted users (src/shared_memory.c). */
module BadList {
  import opened Data

  const MAX_ITEMS_IN_TABLE := 100000

  datatype Item = Item(username: Name, uid: int)

  // ----- What the table means -----

  function Names(s: seq<Item>): set<Name> {
    set i | i in s :: i.username
  }

  ghost predicate Distinct(s: seq<Item>) {
    forall i, j :: 0 <= i < j < |s| ==> s[i].username != s[j].username
  }

  /** The table's invariant: no name twice, and the last slot is never used. */
  ghost predicate WellFormed(s: seq<Item>) {
    Distinct(s) && |s| < MAX_ITEMS_IN_TABLE
  }

  /** All entries of other names, in their order. */
  function Without(s: seq<Item>, n: Name): seq<Item> {
    if s == [] then []
    else if s[0].username == n then Without(s[1..], n)
    else [s[0]] + Without(s[1..], n)
  }

  function Added(s: seq<Item>, n: Name, uid: int): seq<Item> {
    if n in Names(s) || |s| + 1 == MAX_ITEMS_IN_TABLE then s else s + [Item(n, uid)]
  }

  /** The map the table stands for. */
  ghost function AsMap(s: seq<Item>): map<Name, int> {
    if s == [] then map[] else AsMap(s[..|s| - 1])[s[|s| - 1].username := s[|s| - 1].uid]
  }

  /** The uid stored for a name, 0 when there is none (what the client-side loop answers). */
  function Lookup(s: seq<Item>, n: Name): int {
    if s == [] then 0 else if s[0].username == n then s[0].uid else Lookup(s[1..], n)
  }

  // ----- The table refines a map that remembers insertion order -----

  lemma NamesConcat(s: seq<Item>, t: seq<Item>)
    ensures Names(s + t) == Names(s) + Names(t)
  {
    forall n | n in Names(s) + Names(t) ensures n in Names(s + t) {
      var i :| i in s + t && i.username == n;
    }
  }

  lemma NamesAt(s: seq<Item>, k: nat)
    requires k < |s|
    ensures s[k].username in Names(s)
  {
    assert s[k] in s;
  }

  lemma {:induction false} MapKeys(s: seq<Item>)
    ensures AsMap(s).Keys == Names(s)
  {
    if s != [] {
      MapKeys(s[..|s| - 1]);
      assert s == s[..|s| - 1] + [s[|s| - 1]];
      NamesConcat(s[..|s| - 1], [s[|s| - 1]]);
    }
  }

  lemma {:induction false} MapEntry(s: seq<Item>, k: nat)
    requires Distinct(s) && k < |s|
    ensures s[k].username in AsMap(s) && AsMap(s)[s[k].username] == s[k].uid
  {
    if k < |s| - 1 {
      MapEntry(s[..|s| - 1], k);
    }
  }

  lemma {:induction false} LookupEntry(s: seq<Item>, n: Name)
    ensures n !in Names(s) ==> Lookup(s, n) == 0
    ensures n in Names(s) ==> exists k :: 0 <= k < |s| && s[k] == Item(n, Lookup(s, n))
  {
    if s != [] {
      assert s == [s[0]] + s[1..];
      if s[0].username == n {
        assert s[0] == Item(n, Lookup(s, n));
      } else {
        LookupEntry(s[1..], n);
        if n in Names(s[1..]) {
          var k :| 0 <= k < |s[1..]| && s[1..][k] == Item(n, Lookup(s[1..], n));
          assert s[k + 1] == Item(n, Lookup(s, n));
        }
      }
    }
  }

  /** A lookup answers what the map holds, or 0 for an absent name. */
  lemma LookupIsMap(s: seq<Item>, n: Name)
    requires Distinct(s)
    ensures Lookup(s, n) == if n in AsMap(s) then AsMap(s)[n] else 0
  {
    MapKeys(s);
    LookupEntry(s, n);
    if n in Names(s) {
      var k :| 0 <= k < |s| && s[k] == Item(n, Lookup(s, n));
      MapEntry(s, k);
    }
  }

  lemma {:induction false} WithoutNames(s: seq<Item>, n: Name)
    ensures Names(Without(s, n)) == Names(s) - {n}
    ensures |Without(s, n)| <= |s|
    ensures n !in Names(s) ==> Without(s, n) == s
  {
    if s != [] {
      WithoutNames(s[1..], n);
      assert s == [s[0]] + s[1..];
      NamesConcat([s[0]], s[1..]);
      NamesConcat([s[0]], Without(s[1..], n));
    }
  }

  /** Shifting the tail of the table one slot down over a name's entry removes exactly that name. */
  lemma {:induction false} ShiftIsWithout(s: seq<Item>, k: nat)
    requires Distinct(s) && k < |s|
    ensures Without(s, s[k].username) == s[..k] + s[k + 1..]
  {
    var n := s[k].username;
    if k == 0 {
      WithoutNames(s[1..], n);
      assert s[..0] + s[1..] == s[1..];
    } else {
      ShiftIsWithout(s[1..], k - 1);
      assert s[..k] + s[k + 1..] == [s[0]] + (s[1..][..k - 1] + s[1..][k..]);
    }
  }

  lemma MapAppend(s: seq<Item>, item: Item)
    ensures AsMap(s + [item]) == AsMap(s)[item.username := item.uid]
  {
    assert (s + [item])[..|s|] == s;
  }

  lemma DistinctAppend(s: seq<Item>, item: Item)
    requires Distinct(s) && item.username !in Names(s)
    ensures Distinct(s + [item])
  {
    forall i | 0 <= i < |s| ensures s[i].username != item.username {
      NamesAt(s, i);
    }
  }

  lemma AddedWellFormed(s: seq<Item>, n: Name, uid: int)
    requires WellFormed(s)
    ensures WellFormed(Added(s, n, uid))
  {
    if n !in Names(s) {
      DistinctAppend(s, Item(n, uid));
    }
  }

  lemma MapAdded(s: seq<Item>, n: Name, uid: int)
    ensures AsMap(Added(s, n, uid)) ==
            if n in AsMap(s) || |s| + 1 == MAX_ITEMS_IN_TABLE then AsMap(s) else AsMap(s)[n := uid]
  {
    MapKeys(s);
    MapAppend(s, Item(n, uid));
  }

  lemma MapWithout(s: seq<Item>, n: Name)
    requires WellFormed(s)
    ensures WellFormed(Without(s, n))
    ensures AsMap(Without(s, n)) == AsMap(s) - {n}
  {
    MapKeys(s);
    MapKeys(Without(s, n));
    WithoutNames(s, n);
    DistinctWithout(s, n);
    var m := AsMap(Without(s, n));
    forall x | x in m ensures m[x] == AsMap(s)[x] {
      LookupIsMap(Without(s, n), x);
      LookupIsMap(s, x);
      LookupWithout(s, n, x);
    }
  }

  lemma {:induction false} DistinctWithout(s: seq<Item>, n: Name)
    requires Distinct(s)
    ensures Distinct(Without(s, n))
  {
    if s != [] {
      DistinctWithout(s[1..], n);
      WithoutNames(s[1..], n);
      var t := Without(s[1..], n);
      forall i | 0 <= i < |t| ensures t[i].username != s[0].username {
        assert t[i] in t;
        assert t[i].username in Names(t);
        assert s[0].username !in Names(s[1..]);
      }
    }
  }

  lemma {:induction false} LookupWithout(s: seq<Item>, n: Name, x: Name)
    requires x != n
    ensures Lookup(Without(s, n), x) == Lookup(s, x)
  {
    if s != [] {
      LookupWithout(s[1..], n, x);
      if s[0].username != n {
        assert Without(s, n)[1..] == Without(s[1..], n);
      }
    }
  }

  /** Surviving entries keep their order: a removal never moves one name past another. */
  lemma {:induction false} WithoutKeepsOrder(s: seq<Item>, n: Name, i: nat, j: nat)
    requires Distinct(s) && i < j < |s| && s[i].username != n && s[j].username != n
    ensures exists a, b :: 0 <= a < b < |Without(s, n)| && Without(s, n)[a] == s[i] && Without(s, n)[b] == s[j]
  {
    var w := Without(s, n);
    if n in Names(s) {
      var e :| e in s && e.username == n;
      var k :| 0 <= k < |s| && s[k] == e;
      ShiftIsWithout(s, k);
      var a, b := if i < k then i else i - 1, if j < k then j else j - 1;
      assert w[a] == s[i] && w[b] == s[j];
    } else {
      WithoutNames(s, n);
      assert w[i] == s[i] && w[j] == s[j];
    }
  }

  // ----- Whole runs -----

  datatype Op = Add(username: Name, uid: int) | Delete(username: Name) | DeleteAll

  function Apply(s: seq<Item>, op: Op): seq<Item> {
    match op
    case Add(n, uid) => Added(s, n, uid)
    case Delete(n) => Without(s, n)
    case DeleteAll => []
  }

  function Run(ops: seq<Op>): seq<Item> {
    if ops == [] then [] else Apply(Run(ops[..|ops| - 1]), ops[|ops| - 1])
  }

  /** The same run on a plain map: the first uid added for a name stays until the name is deleted. */
  ghost function RunMap(ops: seq<Op>): map<Name, int> {
    if ops == [] then map[]
    else
      var m := RunMap(ops[..|ops| - 1]);
      match ops[|ops| - 1]
      case Add(n, uid) => if n in m || |m| + 1 == MAX_ITEMS_IN_TABLE then m else m[n := uid]
      case Delete(n) => m - {n}
      case DeleteAll => map[]
  }

  lemma {:induction false} MapSize(s: seq<Item>)
    requires Distinct(s)
    ensures |AsMap(s)| == |s|
  {
    if s != [] {
      var t := s[..|s| - 1];
      MapSize(t);
      MapKeys(t);
      assert s[|s| - 1].username !in Names(t);
      assert AsMap(s).Keys == AsMap(t).Keys + {s[|s| - 1].username};
      assert |AsMap(s).Keys| == |AsMap(t).Keys| + 1;
      assert |AsMap(t).Keys| == |AsMap(t)|;
      assert |AsMap(s).Keys| == |AsMap(s)|;
    }
  }

  /** Every run of additions, removals and clears of the array is a run of the map. */
  lemma {:induction false} RunRefinesMap(ops: seq<Op>)
    ensures WellFormed(Run(ops))
    ensures AsMap(Run(ops)) == RunMap(ops)
    ensures forall n :: Lookup(Run(ops), n) == if n in RunMap(ops) then RunMap(ops)[n] else 0
  {
    if ops != [] {
      var s := Run(ops[..|ops| - 1]);
      RunRefinesMap(ops[..|ops| - 1]);
      MapSize(s);
      match ops[|ops| - 1]
      case Add(n, uid) => AddedWellFormed(s, n, uid); MapAdded(s, n, uid);
      case Delete(n) => MapWithout(s, n);
      case DeleteAll =>
    }
    forall n ensures Lookup(Run(ops), n) == if n in RunMap(ops) then RunMap(ops)[n] else 0 {
      LookupIsMap(Run(ops), n);
    }
  }

  // ----- The array in shared memory -----

  class BadUsersList {
    const items: array<Item>
    var numbers: nat
    var attached: bool         // bad_list points to the shared memory

    ghost predicate Valid()
      reads this, items
    {
      items.Length == MAX_ITEMS_IN_TABLE && numbers < MAX_ITEMS_IN_TABLE && WellFormed(items[..numbers])
    }

    ghost function Contents(): seq<Item>
      requires Valid()
      reads this, items
    {
      items[..numbers]
    }

    constructor (attached: bool)
      ensures Valid() && Contents() == [] && fresh(items) && this.attached == attached
    {
      this.attached := attached;
      items := new Item[MAX_ITEMS_IN_TABLE](_ => Item("", 0));
      numbers := 0;
    }

    method IsUserInList(username: Name) returns (rc: int)
      requires Valid()
      ensures rc == if !attached then -1 else if username in Names(Contents()) then 1 else 0
    {
      if !attached {
        return -1;
      }
      var index := 0;
      while index < numbers
        invariant 0 <= index <= numbers
        invariant forall k :: 0 <= k < index ==> items[k].username != username
      {
        if items[index].username == username {
          assert items[index] in Contents();
          return 1;
        }
        index := index + 1;
      }
      return 0;
    }

    /** uid is what the dbuser map answered, or None when its lock could not be taken; semTaken says
        whether the semaphore was. */
    method AddUserToList(username: Name, mapped: Option<int>, isAll: bool, semTaken: bool) returns (rc: int)
      requires Valid()
      modifies `numbers, items
      ensures Valid()
      ensures var known := if mapped.None? then BAD_LVE else mapped.value;
              var uid := if isAll && known == BAD_LVE then 0 else known;
              Contents() == if attached && semTaken then Added(old(Contents()), username, uid) else old(Contents())
      ensures rc == if !attached then -1
                    else if username !in Names(old(Contents())) && |old(Contents())| + 1 == MAX_ITEMS_IN_TABLE then -2
                    else 0
    {
      if !attached {
        return -1;
      }
      var uid := BAD_LVE;
      if mapped.Some? {
        uid := mapped.value;
      }
      if isAll && uid == BAD_LVE {
        uid := 0;
      }
      var present := IsUserInList(username);
      if present == 0 {
        if numbers + 1 == MAX_ITEMS_IN_TABLE {
          return -2;
        }
        if semTaken {
          AddedWellFormed(Contents(), username, uid);
          items[numbers] := Item(username, uid);
          numbers := numbers + 1;
          assert Contents() == old(Contents()) + [Item(username, uid)];
        }
      }
      return 0;
    }

    /** The memmove over one entry, and the decrement that follows it. */
    method RemoveAt(index: nat)
      requires Valid() && index < numbers
      modifies `numbers, items
      ensures Valid()
      ensures Contents() == Without(old(Contents()), old(items[index].username))
    {
      ghost var before := Contents();
      ShiftIsWithout(before, index);
      MapWithout(before, items[index].username);
      if index != numbers - 1 {
        forall k | index <= k < numbers - 1 {
          items[k] := items[k + 1];
        }
      }
      numbers := numbers - 1;
      assert items[..numbers] == before[..index] + before[index + 1..];
    }

    method DeleteUserFromList(username: Name, semTaken: bool) returns (rc: int)
      requires Valid()
      modifies `numbers, items
      ensures Valid()
      ensures Contents() == if attached && semTaken then Without(old(Contents()), username) else old(Contents())
      ensures rc == if !attached then -1 else if semTaken && username in Names(old(Contents())) then 0 else -2
    {
      if !attached {
        return -1;
      }
      ghost var before := Contents();
      var index := 0;
      while index < numbers
        invariant 0 <= index <= numbers
        invariant Valid() && Contents() == before
        invariant semTaken ==> forall k :: 0 <= k < index ==> before[k].username != username
      {
        if items[index].username == username {
          if semTaken {
            NamesAt(before, index);
            RemoveAt(index);
            return 0;
          }
        }
        index := index + 1;
      }
      if semTaken {
        assert username !in Names(before);
        WithoutNames(before, username);
      }
      return -2;
    }

    method DeleteAllUsersFromList(semTaken: bool) returns (rc: int)
      requires Valid()
      modifies `numbers, items
      ensures Valid()
      ensures Contents() == if attached && semTaken then [] else old(Contents())
      ensures rc == if !attached then -1 else if semTaken then 0 else -2
    {
      if !attached {
        return -1;
      }
      if semTaken {
        forall k | 0 <= k < items.Length {
          items[k] := Item("", 0);
        }
        numbers := 0;
        return 0;
      }
      return -2;
    }

    /** The loop a MySQL thread runs to learn in which container it must run. */
    method UserInBadListClient(username: Name) returns (found: int)
      requires Valid()
      ensures found == if attached then Lookup(Contents(), username) else 0
      ensures found == if attached && username in AsMap(Contents()) then AsMap(Contents())[username] else 0
    {
      if !attached {
        return 0;
      }
      LookupIsMap(Contents(), username);
      found := 0;
      var index := 0;
      while index < numbers
        invariant 0 <= index <= numbers
        invariant found == 0
        invariant Lookup(Contents(), username) == Lookup(Contents()[index..], username)
      {
        if items[index].username == username {
          found := items[index].uid;
          break;
        }
        assert Contents()[index..][1..] == Contents()[index + 1..];
        index := index + 1;
      }
    }
  }
}
