/** The circular buffer of cbuf.c. A free slot holds the sentinel, and a value already
    stored is not stored again. */
module CircularBuffer {
  import opened Options

  const SENTINEL_VALUE: int := 0xEE
  const COLORS_UNLOCKED: nat := 4

  datatype Code = Success | Full | NoElements

  /** The live slots from tail to head, oldest first. */
  function Live(buffer: seq<int>, head: nat, tail: nat): seq<int>
    requires head < |buffer| && tail < |buffer|
  {
    if tail <= head then buffer[tail..head] else buffer[tail..] + buffer[..head]
  }

  /** The free slots, which always include the one at head. */
  function Free(buffer: seq<int>, head: nat, tail: nat): seq<int>
    requires head < |buffer| && tail < |buffer|
  {
    if tail <= head then buffer[..tail] + buffer[head..] else buffer[head..tail]
  }

  predicate AllSentinel(s: seq<int>) {
    forall i :: 0 <= i < |s| ==> s[i] == SENTINEL_VALUE
  }

  /** No value other than the sentinel occurs twice. */
  predicate NoDuplicates(s: seq<int>) {
    forall i, j :: 0 <= i < j < |s| && s[i] != SENTINEL_VALUE ==> s[i] != s[j]
  }

  // ---------- the bounded queue it refines ----------

  /** Push into a queue for at most `cap` values. */
  function Push(q: seq<int>, cap: nat, x: int): (seq<int>, Code) {
    if |q| == cap then (q, Full)
    else if x == SENTINEL_VALUE || x in q then (q, Success)
    else (q + [x], Success)
  }

  function Pop(q: seq<int>): (seq<int>, Option<int>) {
    if q == [] then (q, None) else (q[1..], Some(q[0]))
  }

  function PushAll(cap: nat, xs: seq<int>): seq<int> {
    if xs == [] then [] else Push(PushAll(cap, xs[..|xs| - 1]), cap, xs[|xs| - 1]).0
  }

  /** `n` pops: what is left and what came out. */
  function PopTimes(q: seq<int>, n: nat): (seq<int>, seq<int>) {
    if n == 0 then (q, [])
    else
      var (left, out) := PopTimes(q, n - 1);
      var (rest, x) := Pop(left);
      (rest, if x.Some? then out + [x.value] else out)
  }

  /** The values of a list without sentinels and repetitions, in the order of first mention. */
  function Distinct(xs: seq<int>): seq<int> {
    if xs == [] then []
    else
      var before, x := Distinct(xs[..|xs| - 1]), xs[|xs| - 1];
      if x == SENTINEL_VALUE || x in before then before else before + [x]
  }

  function AtMost(n: nat, s: seq<int>): seq<int> {
    if |s| <= n then s else s[..n]
  }

  /** A push is refused iff the queue is full, even of a value that is already in it; after
      one that succeeds the value is in the queue once, unless it is the sentinel. */
  lemma PushAnswers(q: seq<int>, cap: nat, x: int)
    requires NoDuplicates(q) && |q| <= cap && SENTINEL_VALUE !in q
    ensures var (r, code) := Push(q, cap, x);
            && (code == Full <==> |q| == cap) && code != NoElements
            && (code == Success ==> (x in r <==> x != SENTINEL_VALUE))
            && NoDuplicates(r) && q <= r && |r| <= cap && SENTINEL_VALUE !in r
            && (r != q ==> code == Success && x !in q)
  {
  }

  /** Whatever is pushed into an empty queue, it keeps the first distinct values that fit. */
  lemma {:induction false} PushAllKeepsFirst(cap: nat, xs: seq<int>)
    ensures PushAll(cap, xs) == AtMost(cap, Distinct(xs))
    decreases |xs|
  {
    if xs != [] {
      PushAllKeepsFirst(cap, xs[..|xs| - 1]);
    }
  }

  /** They come out in the order in which they went in, and then nothing more does. */
  lemma {:induction false} FirstInFirstOut(q: seq<int>, n: nat)
    ensures PopTimes(q, n) == (if n < |q| then q[n..] else [], AtMost(n, q))
    decreases n
  {
    if n > 0 {
      FirstInFirstOut(q, n - 1);
      if n <= |q| {
        assert q[n - 1..][1..] == q[n..] && AtMost(n - 1, q) + [q[n - 1]] == AtMost(n, q);
      }
    }
  }

  /** The values other than the sentinel, in order. */
  function Values(s: seq<int>): seq<int> {
    if s == [] then []
    else (if s[0] != SENTINEL_VALUE then [s[0]] else []) + Values(s[1..])
  }

  function Next(i: int, n: int): int {
    if i + 1 >= n then 0 else i + 1
  }

  /** Filling the slot at head appends one value to the live ones. */
  lemma FillSlot(b: seq<int>, head: nat, tail: nat, x: int)
    requires head < |b| && tail < |b| && 2 <= |b| && Next(head, |b|) != tail
    ensures Live(b[head := x], Next(head, |b|), tail) == Live(b, head, tail) + [x]
    ensures AllSentinel(Free(b, head, tail)) ==> AllSentinel(Free(b[head := x], Next(head, |b|), tail))
  {
    var c, next := b[head := x], Next(head, |b|);
    if tail <= head {
      assert c[tail..head] == b[tail..head];
      assert Free(b, head, tail) == b[..tail] + b[head..];
      if next != 0 {
        assert Free(c, next, tail) == Free(b, head, tail)[..tail] + Free(b, head, tail)[tail + 1..];
      } else {
        assert c[tail..] == b[tail..head] + [x];
        assert Free(c, next, tail) == Free(b, head, tail)[..tail];
      }
    } else {
      assert c[tail..] == b[tail..] && c[..next] == b[..head] + [x];
      assert Free(c, next, tail) == Free(b, head, tail)[1..];
    }
  }

  lemma AllSentinelParts(a: seq<int>, b: seq<int>)
    ensures AllSentinel(a + b) <==> AllSentinel(a) && AllSentinel(b)
    ensures AllSentinel(a + [SENTINEL_VALUE] + b) <==> AllSentinel(a) && AllSentinel(b)
  {
    assert AllSentinel(a + b) ==> forall i :: 0 <= i < |b| ==> b[i] == (a + b)[|a| + i];
    assert AllSentinel(a + [SENTINEL_VALUE] + b) ==>
        forall i :: 0 <= i < |b| ==> b[i] == (a + [SENTINEL_VALUE] + b)[|a| + 1 + i];
    assert AllSentinel(a + b) ==> forall i :: 0 <= i < |a| ==> a[i] == (a + b)[i];
    assert AllSentinel(a + [SENTINEL_VALUE] + b) ==> forall i :: 0 <= i < |a| ==> a[i] == (a + [SENTINEL_VALUE] + b)[i];
  }

  /** Clearing the slot at tail drops the oldest live value. */
  lemma ClearSlot(b: seq<int>, head: nat, tail: nat)
    requires head < |b| && tail < |b| && 2 <= |b| && head != tail
    ensures Live(b, head, tail) == [b[tail]] + Live(b[tail := SENTINEL_VALUE], head, Next(tail, |b|))
    ensures AllSentinel(Free(b, head, tail)) ==> AllSentinel(Free(b[tail := SENTINEL_VALUE], head, Next(tail, |b|)))
  {
    if tail < head {
      ClearBefore(b, head, tail);
    } else if tail + 1 < |b| {
      ClearAfter(b, head, tail);
    } else {
      ClearLast(b, head, tail);
    }
  }

  lemma ClearBefore(b: seq<int>, head: nat, tail: nat)
    requires tail < head < |b|
    ensures Live(b, head, tail) == [b[tail]] + Live(b[tail := SENTINEL_VALUE], head, Next(tail, |b|))
    ensures AllSentinel(Free(b, head, tail)) ==> AllSentinel(Free(b[tail := SENTINEL_VALUE], head, Next(tail, |b|)))
  {
    var c := b[tail := SENTINEL_VALUE];
    assert c[tail + 1..head] == b[tail + 1..head];
    assert b[tail..head] == [b[tail]] + b[tail + 1..head];
    assert c[..tail + 1] == b[..tail] + [SENTINEL_VALUE] && c[head..] == b[head..];
    AllSentinelParts(b[..tail], b[head..]);
  }

  lemma ClearAfter(b: seq<int>, head: nat, tail: nat)
    requires head < tail && tail + 1 < |b|
    ensures Live(b, head, tail) == [b[tail]] + Live(b[tail := SENTINEL_VALUE], head, Next(tail, |b|))
    ensures AllSentinel(Free(b, head, tail)) ==> AllSentinel(Free(b[tail := SENTINEL_VALUE], head, Next(tail, |b|)))
  {
    var c := b[tail := SENTINEL_VALUE];
    assert c[tail + 1..] == b[tail + 1..] && c[..head] == b[..head];
    assert b[tail..] == [b[tail]] + b[tail + 1..];
    assert c[head..tail + 1] == b[head..tail] + [SENTINEL_VALUE];
  }

  lemma ClearLast(b: seq<int>, head: nat, tail: nat)
    requires head < tail == |b| - 1
    ensures Live(b, head, tail) == [b[tail]] + Live(b[tail := SENTINEL_VALUE], head, Next(tail, |b|))
    ensures AllSentinel(Free(b, head, tail)) ==> AllSentinel(Free(b[tail := SENTINEL_VALUE], head, Next(tail, |b|)))
  {
    var c := b[tail := SENTINEL_VALUE];
    assert b[tail..] == [b[tail]];
    assert c[0..head] == b[..head];
    assert Free(c, head, 0) == b[head..tail] + [SENTINEL_VALUE];
  }

  /** The search over all slots finds exactly the live values and the sentinel. */
  lemma StoredIff(b: seq<int>, head: nat, tail: nat, x: int)
    requires head < |b| && tail < |b| && AllSentinel(Free(b, head, tail))
    ensures x in b <==> x == SENTINEL_VALUE || x in Live(b, head, tail)
  {
    var live, free := Live(b, head, tail), Free(b, head, tail);
    if tail <= head {
      assert b == b[..tail] + live + b[head..];
      assert free[tail] == b[head];
      assert x in b <==> x in live || x in free;
    } else {
      assert b == b[..head] + free + b[tail..];
      assert free[0] == b[head];
      assert x in b <==> x in live || x in free;
    }
  }

  lemma {:induction false} ValuesAppend(a: seq<int>, b: seq<int>)
    ensures Values(a + b) == Values(a) + Values(b)
  {
    if a == [] {
      assert a + b == b;
    } else {
      assert (a + b)[1..] == a[1..] + b;
      ValuesAppend(a[1..], b);
    }
  }

  lemma {:induction false} NoValues(s: seq<int>)
    requires AllSentinel(s)
    ensures Values(s) == []
  {
    if s != [] {
      NoValues(s[1..]);
    }
  }

  lemma {:induction false} ValuesFewer(s: seq<int>)
    ensures |Values(s)| <= |s|
    ensures forall x :: x in Values(s) <==> x in s && x != SENTINEL_VALUE
  {
    if s != [] {
      ValuesFewer(s[1..]);
      assert s == [s[0]] + s[1..];
    }
  }

  lemma ValuesOfThree(a: seq<int>, b: seq<int>, c: seq<int>)
    ensures Values(a + b + c) == Values(a) + Values(b) + Values(c)
  {
    ValuesAppend(a + b, c);
    ValuesAppend(a, b);
  }

  lemma Rejoin(b: seq<int>, i: nat, j: nat)
    requires i <= j <= |b|
    ensures b[..i] + b[i..j] + b[j..] == b
  {
  }

  /** The values in slot order are the live values, each as often as it is live, and always
      fewer than the slots. */
  lemma SnapshotIsLive(b: seq<int>, head: nat, tail: nat)
    requires head < |b| && tail < |b| && AllSentinel(Free(b, head, tail))
    ensures multiset(Values(b)) == multiset(Values(Live(b, head, tail)))
    ensures tail <= head ==> Values(b) == Values(Live(b, head, tail))
    ensures |Values(b)| < |b|
  {
    ValuesFewer(Live(b, head, tail));
    if tail <= head {
      StraightValues(b, head, tail);
    } else {
      WrappedValues(b, head, tail);
    }
  }

  lemma StraightValues(b: seq<int>, head: nat, tail: nat)
    requires tail <= head < |b| && AllSentinel(Free(b, head, tail))
    ensures Values(b) == Values(Live(b, head, tail))
  {
    AllSentinelParts(b[..tail], b[head..]);
    NoValues(b[..tail]);
    NoValues(b[head..]);
    ValuesOfThree(b[..tail], b[tail..head], b[head..]);
    Rejoin(b, tail, head);
  }

  lemma WrappedValues(b: seq<int>, head: nat, tail: nat)
    requires head < tail < |b| && AllSentinel(Free(b, head, tail))
    ensures multiset(Values(b)) == multiset(Values(Live(b, head, tail)))
    ensures |Values(b)| == |Values(Live(b, head, tail))|
  {
    NoValues(b[head..tail]);
    ValuesOfThree(b[..head], b[head..tail], b[tail..]);
    Rejoin(b, head, tail);
    ValuesAppend(b[tail..], b[..head]);
    assert Values(b) == Values(b[..head]) + Values(b[tail..]);
  }

  lemma WipedIsValid(b: seq<int>, head: nat, tail: nat)
    requires head < |b| && tail < |b| && AllSentinel(b)
    ensures AllSentinel(Free(b, head, tail)) && AllSentinel(Live(b, head, tail))
  {
  }

  lemma ValuesStep(b: seq<int>, i: nat)
    requires i < |b|
    ensures Values(b[..i + 1]) == Values(b[..i]) + (if b[i] != SENTINEL_VALUE then [b[i]] else [])
    ensures |Values(b[..i + 1])| <= |Values(b)|
  {
    assert b[..i + 1] == b[..i] + [b[i]];
    ValuesAppend(b[..i], [b[i]]);
    assert b == b[..i + 1] + b[i + 1..];
    ValuesAppend(b[..i + 1], b[i + 1..]);
  }

  /** The slot reached from `t` in `k` steps round a buffer of `n`. */
  function Slot(t: int, k: int, n: int): int {
    if t + k < n then t + k else t + k - n
  }

  /** How many steps from `t` reach slot `k`. */
  function Steps(t: int, k: int, n: int): int {
    if t <= k then k - t else k - t + n
  }

  /** The slots reached in fewer than `i` steps from `t` are clear. */
  predicate Wiped(b: seq<int>, t: int, i: int) {
    forall k :: 0 <= k < |b| && Steps(t, k, |b|) < i ==> b[k] == SENTINEL_VALUE
  }

  lemma WipeStep(b: seq<int>, c: seq<int>, t: nat, i: nat)
    requires |b| == |c| && t < |b| && i < |b| && Wiped(b, t, i)
    requires c[Slot(t, i, |b|)] == SENTINEL_VALUE
    requires forall k :: 0 <= k < |b| && b[k] == SENTINEL_VALUE ==> c[k] == SENTINEL_VALUE
    ensures Wiped(c, t, i + 1)
  {
    forall k | 0 <= k < |c| && Steps(t, k, |c|) < i + 1
      ensures c[k] == SENTINEL_VALUE
    {
      assert Steps(t, k, |b|) < i || k == Slot(t, i, |b|);
    }
  }

  class CBuf {
    const buffer: array<int>
    var head: int
    var tail: int
    const maxLength: int

    /** What the operations need. */
    ghost predicate InRange()
      reads this
    {
      buffer.Length == maxLength && 2 <= maxLength && 0 <= head < maxLength && 0 <= tail < maxLength
    }

    ghost function Contents(): seq<int>
      reads this, buffer
      requires InRange()
    {
      Live(buffer[..], head, tail)
    }

    /** What push and pop preserve. */
    ghost predicate Valid()
      reads this, buffer
    {
      InRange() && AllSentinel(Free(buffer[..], head, tail)) && NoDuplicates(Contents())
    }

    constructor (space: array<int>, at: int)
      requires space.Length >= 2 && 0 <= at < space.Length
      ensures InRange() && buffer == space && maxLength == space.Length && head == tail == at
    {
      buffer, maxLength, head, tail := space, space.Length, at, at;
    }

    method ItemExists(data: int) returns (found: bool)
      requires InRange()
      ensures found <==> data in buffer[..]
    {
      var i := 0;
      while i < maxLength
        invariant 0 <= i <= maxLength
        invariant data !in buffer[..i]
      {
        if buffer[i] == data {
          return true;
        }
        i := i + 1;
      }
      return false;
    }

    method Add(data: int, next: int)
      requires InRange() && 0 <= next < maxLength
      modifies this`head, buffer
      ensures data in old(buffer[..]) ==> head == old(head) && buffer[..] == old(buffer[..])
      ensures data !in old(buffer[..]) ==> head == next && buffer[..] == old(buffer[..])[old(head) := data]
    {
      var found := ItemExists(data);
      if !found {
        buffer[head] := data;
        head := next;
      }
    }

    method InitSlot(data: int) returns (code: Code)
      requires InRange()
      modifies this`head, buffer
      ensures InRange()
      ensures code == (if |old(Contents())| == maxLength - 1 then Full else Success)
      ensures if code == Full then head == old(head) && buffer[..] == old(buffer[..])
              else head == Next(old(head), maxLength) && buffer[..] == old(buffer[..])[old(head) := data]
      ensures Contents() == if code == Full then old(Contents()) else old(Contents()) + [data]
    {
      var next := head + 1;
      if next >= maxLength {
        next := 0;
      }
      if next == tail {
        return Full;
      }
      FillSlot(buffer[..], head, tail, data);
      buffer[head] := data;
      head := next;
      return Success;
    }

    method PushValue(data: int) returns (code: Code)
      requires Valid()
      modifies this`head, buffer
      ensures Valid() && (Contents(), code) == Push(old(Contents()), maxLength - 1, data)
      ensures Contents() == old(Contents()) ==> buffer[..] == old(buffer[..])
    {
      var next := head + 1;
      if next >= maxLength {
        next := 0;
      }
      if next == tail {
        return Full;
      }
      StoredIff(buffer[..], head, tail, data);
      FillSlot(buffer[..], head, tail, data);
      Add(data, next);
      return Success;
    }

    method PopValue() returns (code: Code, data: int)
      requires InRange()
      modifies this`tail, buffer
      ensures InRange()
      ensures (Contents(), if code == Success then Some(data) else None) == Pop(old(Contents()))
      ensures code == Success || code == NoElements
      ensures old(Valid()) ==> Valid()
      ensures code == NoElements ==> tail == old(tail) && buffer[..] == old(buffer[..])
      ensures code == Success ==>
                tail == Next(old(tail), maxLength) && buffer[..] == old(buffer[..])[old(tail) := SENTINEL_VALUE]
    {
      data := 0;
      if head == tail {
        return NoElements, data;
      }
      ClearSlot(buffer[..], head, tail);
      data := buffer[tail];
      buffer[tail] := SENTINEL_VALUE;
      var next := tail + 1;
      if next >= maxLength {
        next := 0;
      }
      tail := next;
      code := Success;
    }

    /** The elements other than the sentinel; a buffer of five slots always fits the four
        entries of buf_array_t. */
    method GetElementsInBuffer(elements: array<int>) returns (length: nat)
      requires Valid() && elements.Length >= maxLength - 1 && elements != buffer
      modifies elements
      ensures length < maxLength
      ensures elements[..length] == Values(buffer[..])
      ensures multiset(elements[..length]) == multiset(Values(Contents()))
    {
      SnapshotIsLive(buffer[..], head, tail);
      length := CopyValues(elements);
    }

    /** The loop: the values other than the sentinel, in slot order. */
    method CopyValues(elements: array<int>) returns (length: nat)
      requires InRange() && elements != buffer && elements.Length >= |Values(buffer[..])|
      modifies elements
      ensures length == |Values(buffer[..])| && elements[..length] == Values(buffer[..])
    {
      ghost var b := buffer[..];
      length := 0;
      var i := 0;
      while i < maxLength
        invariant 0 <= i <= maxLength
        invariant buffer[..] == b
        invariant length == |Values(b[..i])| <= |Values(b)|
        invariant forall k :: 0 <= k < length ==> elements[k] == Values(b[..i])[k]
      {
        ValuesStep(b, i);
        if buffer[i] != SENTINEL_VALUE {
          elements[length] := buffer[i];
          length := length + 1;
        }
        i := i + 1;
      }
      assert b[..maxLength] == b;
    }

    method HasElements() returns (b: bool)
      requires InRange()
      ensures b <==> Contents() != []
    {
      return head != tail;
    }

    /** One round of the initialisation loops: the slot at tail is cleared and stays clear. */
    method WipeRound() returns (popped: bool)
      requires InRange()
      modifies this`head, this`tail, buffer
      ensures InRange() && popped
      ensures tail == Next(old(tail), maxLength) && buffer[old(tail)] == SENTINEL_VALUE
      ensures forall k :: 0 <= k < maxLength && old(buffer[..])[k] == SENTINEL_VALUE ==> buffer[..][k] == SENTINEL_VALUE
      ensures |Contents()| == if |old(Contents())| == maxLength - 1 then maxLength - 2 else |old(Contents())|
    {
      var _ := InitSlot(SENTINEL_VALUE);
      var code, _ := PopValue();
      return code == Success;
    }

    /** As many rounds as there are slots wipe the buffer from any position, and every pop of
        a round succeeds; sentinels that were live stay live. */
    method Wipe() returns (pops: nat)
      requires InRange()
      modifies this`head, this`tail, buffer
      ensures AllSentinel(buffer[..]) && Valid() && pops == maxLength
      ensures |Contents()| == if |old(Contents())| == maxLength - 1 then maxLength - 2 else |old(Contents())|
    {
      pops := 0;
      var i := 0;
      while i < maxLength
        invariant 0 <= i <= maxLength && InRange() && pops == i
        invariant i < maxLength ==> tail == Slot(old(tail), i, maxLength)
        invariant Wiped(buffer[..], old(tail), i)
        invariant |Contents()| == if i > 0 && |old(Contents())| == maxLength - 1 then maxLength - 2 else |old(Contents())|
      {
        ghost var before := buffer[..];
        var popped := WipeRound();
        WipeStep(before, buffer[..], old(tail), i);
        if popped {
          pops := pops + 1;
        }
        i := i + 1;
      }
      assert forall k :: 0 <= k < maxLength ==> Steps(old(tail), k, maxLength) < maxLength;
      WipedIsValid(buffer[..], head, tail);
    }
  }
}
