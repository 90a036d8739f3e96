/** The list of up to sixteen friends, and the map from addresses to colours it stands for.
    An address is one number, with 0 for the all-zero address; the address type, which no
    comparison looks at, is not kept. */
module Friends {
  import opened Options

  const MAX_NUM_OF_FRIENDS: nat := 16

  datatype Friend = Friend(addr: int, color: int)

  const NO_FRIEND := Friend(0, 0)

  /** The entries in use: addresses are non-zero and pairwise distinct. */
  predicate Roster(fs: seq<Friend>) {
    && |fs| <= MAX_NUM_OF_FRIENDS
    && (forall i :: 0 <= i < |fs| ==> fs[i].addr != 0)
    && (forall i, j :: 0 <= i < j < |fs| ==> fs[i].addr != fs[j].addr)
  }

  /** The least index holding `addr`, or the length. */
  function IndexOf(fs: seq<Friend>, addr: int): (k: nat)
    ensures k <= |fs|
    ensures k < |fs| ==> fs[k].addr == addr
    ensures forall i :: 0 <= i < k ==> fs[i].addr != addr
  {
    if fs == [] || fs[0].addr == addr then 0 else 1 + IndexOf(fs[1..], addr)
  }

  /** add_or_update_friends_list on the entries in use. */
  function AddOrUpdate(fs: seq<Friend>, addr: int, color: int): seq<Friend> {
    if |fs| == MAX_NUM_OF_FRIENDS then fs
    else if IndexOf(fs, addr) < |fs| then fs[IndexOf(fs, addr) := Friend(fs[IndexOf(fs, addr)].addr, color)]
    else fs + [Friend(addr, color)]
  }

  /** jwb_friend_found on all slots, of which the first `num` are in use. */
  function Find(slots: seq<Friend>, num: nat, addr: int): Option<nat> {
    if num == 0 || num > MAX_NUM_OF_FRIENDS then None
    else if IndexOf(slots, addr) < |slots| then Some(IndexOf(slots, addr))
    else None
  }

  ghost function AsMap(fs: seq<Friend>): map<int, int> {
    map a | a in (set i | 0 <= i < |fs| :: fs[i].addr) :: fs[IndexOf(fs, a)].color
  }

  lemma InMap(fs: seq<Friend>, addr: int)
    ensures addr in AsMap(fs) <==> IndexOf(fs, addr) < |fs|
    ensures addr in AsMap(fs) ==> AsMap(fs)[addr] == fs[IndexOf(fs, addr)].color
  {
    if IndexOf(fs, addr) < |fs| {
      assert fs[IndexOf(fs, addr)].addr in (set i | 0 <= i < |fs| :: fs[i].addr);
    }
  }

  lemma AddOrUpdateKeepsRoster(fs: seq<Friend>, addr: int, color: int)
    requires Roster(fs) && addr != 0 && |fs| < MAX_NUM_OF_FRIENDS
    ensures Roster(AddOrUpdate(fs, addr, color))
  {
    var k := IndexOf(fs, addr);
    var gs := AddOrUpdate(fs, addr, color);
    assert forall i :: 0 <= i < |fs| ==> gs[i].addr == fs[i].addr;
    if k == |fs| {
      assert gs[k].addr == addr;
    }
  }

  /** Below sixteen friends the list is updated like a map, at sixteen it is left alone,
      even when the address is already known. */
  lemma AddOrUpdateRefinesMap(fs: seq<Friend>, addr: int, color: int)
    requires Roster(fs) && addr != 0
    ensures Roster(AddOrUpdate(fs, addr, color))
    ensures AsMap(AddOrUpdate(fs, addr, color)) ==
            if |fs| == MAX_NUM_OF_FRIENDS then AsMap(fs) else AsMap(fs)[addr := color]
  {
    if |fs| < MAX_NUM_OF_FRIENDS {
      AddOrUpdateKeepsRoster(fs, addr, color);
      var gs := AddOrUpdate(fs, addr, color);
      forall a
        ensures a in AsMap(gs) <==> a in AsMap(fs)[addr := color]
        ensures a in AsMap(gs) ==> AsMap(gs)[a] == AsMap(fs)[addr := color][a]
      {
        InMap(fs, a);
        InMap(gs, a);
        SameIndex(fs, addr, color, a);
      }
    }
  }

  lemma SameIndex(fs: seq<Friend>, addr: int, color: int, a: int)
    requires Roster(fs) && |fs| < MAX_NUM_OF_FRIENDS
    ensures var gs := AddOrUpdate(fs, addr, color);
            && (a == addr ==> IndexOf(gs, a) < |gs| && gs[IndexOf(gs, a)].color == color)
            && (a != addr ==> (IndexOf(gs, a) < |gs| <==> IndexOf(fs, a) < |fs|))
            && (a != addr && IndexOf(fs, a) < |fs| ==>
                  IndexOf(gs, a) < |gs| && gs[IndexOf(gs, a)].color == fs[IndexOf(fs, a)].color)
  {
    var gs := AddOrUpdate(fs, addr, color);
    var k := IndexOf(fs, addr);
    assert gs[k] == Friend(addr, color);
    assert forall i :: 0 <= i < |fs| && i != k ==> gs[i] == fs[i];
    if IndexOf(fs, a) < |fs| {
      assert gs[IndexOf(fs, a)].addr == a;
    }
  }

  /** The search over all slots agrees with the map exactly when the address is non-zero or
      the list is empty or full: an unused slot looks like a friend with address zero. */
  lemma FindAgreesIff(fs: seq<Friend>, slots: seq<Friend>, addr: int)
    requires Roster(fs) && |slots| == MAX_NUM_OF_FRIENDS
    requires fs <= slots && forall i :: |fs| <= i < |slots| ==> slots[i] == NO_FRIEND
    ensures (Find(slots, |fs|, addr).Some? <==> addr in AsMap(fs))
            <==> addr != 0 || |fs| == 0 || |fs| == MAX_NUM_OF_FRIENDS
    ensures addr != 0 && Find(slots, |fs|, addr).Some? ==>
              slots[Find(slots, |fs|, addr).value].color == AsMap(fs)[addr]
  {
    InMap(fs, addr);
    var k := IndexOf(slots, addr);
    assert forall i :: 0 <= i < |fs| ==> fs[i] == slots[i];
    if addr == 0 && |fs| < MAX_NUM_OF_FRIENDS {
      assert slots[|fs|].addr == 0;
    }
    if addr != 0 && k < |slots| {
      assert fs[k].addr == addr;
    }
  }

  /** The colour under which the search finds an address. */
  function ColorOf(slots: seq<Friend>, num: nat, addr: int): Option<int> {
    var k := Find(slots, num, addr);
    if k.Some? then Some(slots[k.value].color) else None
  }

  lemma ColorOfIsMap(fs: seq<Friend>, slots: seq<Friend>, addr: int)
    requires Roster(fs) && |slots| == MAX_NUM_OF_FRIENDS && addr != 0
    requires fs <= slots && forall i :: |fs| <= i < |slots| ==> slots[i] == NO_FRIEND
    ensures ColorOf(slots, |fs|, addr) == if addr in AsMap(fs) then Some(AsMap(fs)[addr]) else None
  {
    FindAgreesIff(fs, slots, addr);
  }

  /** jwb.friends_list with its slots updated in place. */
  class FriendsList {
    const slots: array<Friend>
    var num: nat

    ghost predicate Shape()
      reads this
    {
      slots.Length == MAX_NUM_OF_FRIENDS && num <= MAX_NUM_OF_FRIENDS
    }

    ghost predicate Valid()
      reads this, slots
    {
      && Shape()
      && Roster(slots[..num])
      && forall i :: num <= i < slots.Length ==> slots[i] == NO_FRIEND
    }

    ghost function Used(): seq<Friend>
      reads this, slots
      requires num <= slots.Length
    {
      slots[..num]
    }

    constructor ()
      ensures Valid() && Used() == [] && fresh(slots)
    {
      slots := new Friend[MAX_NUM_OF_FRIENDS](_ => NO_FRIEND);
      num := 0;
    }

    method InFriendsList(addr: int) returns (at: Option<nat>)
      requires Shape()
      ensures at == if IndexOf(Used(), addr) < |Used()| then Some(IndexOf(Used(), addr)) else None
    {
      var i := 0;
      while i < num
        invariant 0 <= i <= num
        invariant forall k :: 0 <= k < i ==> slots[k].addr != addr
      {
        if slots[i].addr == addr {
          assert Used()[i].addr == addr;
          return Some(i);
        }
        i := i + 1;
      }
      return None;
    }

    method AddOrUpdateFriendsList(pending: int, color: int)
      requires Shape()
      modifies this, slots
      ensures Shape() && Used() == AddOrUpdate(old(Used()), pending, color)
      ensures old(Valid()) && pending != 0 ==>
                && Valid()
                && AsMap(Used()) == if old(num) == MAX_NUM_OF_FRIENDS then old(AsMap(Used()))
                                    else old(AsMap(Used()))[pending := color]
    {
      if Valid() && pending != 0 {
        AddOrUpdateRefinesMap(Used(), pending, color);
      }
      if num == MAX_NUM_OF_FRIENDS {
        return;
      }
      var at := InFriendsList(pending);
      if at.Some? {
        slots[at.value] := slots[at.value].(color := color);
      } else {
        slots[num] := Friend(pending, color);
        num := num + 1;
      }
      assert Used() == AddOrUpdate(old(Used()), pending, color);
    }

    /** What a received address is known under. */
    ghost function Known(addr: int): Option<int>
      reads this, slots
      requires num <= slots.Length
    {
      ColorOf(slots[..], num, addr)
    }

    method FriendFound(addr: int) returns (index: Option<nat>)
      requires Valid()
      ensures index == Find(slots[..], num, addr)
      ensures Known(addr) == if index.Some? then Some(slots[index.value].color) else None
      ensures addr != 0 ==> Known(addr) == if addr in AsMap(Used()) then Some(AsMap(Used())[addr]) else None
    {
      if addr != 0 {
        ColorOfIsMap(Used(), slots[..], addr);
      }
      if num == 0 || num > MAX_NUM_OF_FRIENDS {
        return None;
      }
      var i := 0;
      while i < slots.Length
        invariant 0 <= i <= slots.Length
        invariant forall k :: 0 <= k < i ==> slots[k].addr != addr
      {
        if slots[i].addr == addr {
          assert slots[..][i].addr == addr;
          return Some(i);
        }
        i := i + 1;
      }
      return None;
    }
  }
}
