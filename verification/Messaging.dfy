/** The message pipeline: per-colour queues of symbols, the scan response that carries a
    queue, the ring of tags that suppresses duplicates, and the playback record. */
module Messaging {
  import opened Options
  import opened AdStructures
  import opened Friends

  const COLORS_UNLOCKED: nat := 4
  const MAX_MSG_SIZE: nat := 18
  const MSG_FLAG: int := 0xBB
  const MSG_TAG_LENGTH: nat := 2
  const MSG_TAG_QUEUE_LENGTH: nat := 4
  const MSG_REC_START_INDEX: nat := 3

  datatype Tag = Tag(first: int, second: int)
  datatype Playback = Playback(color: int, symbols: seq<int>)

  const ZERO_TAG := Tag(0, 0)

  function FirstSymbols(s: seq<int>): seq<int> {
    if |s| <= MAX_MSG_SIZE then s else s[..MAX_MSG_SIZE]
  }

  // ---------- the packet format ----------

  /** Flag, colour, symbols and tag, as manufacturer data. */
  function Packet(color: int, symbols: seq<int>, tag: Tag): seq<int> {
    [MSG_FLAG, color] + symbols + [tag.first, tag.second]
  }

  /** manuf_specific_data_encode for company 0x2103, low byte first. */
  function ManufacturerAd(data: seq<int>): Ad {
    Ad(MANUFACTURER_SPECIFIC_DATA, [0x03, 0x21] + data)
  }

  function ManufacturerData(data: seq<int>): seq<int> {
    EncodeOne(ManufacturerAd(data))
  }

  function ScanResponse(color: int, symbols: seq<int>, tag: Tag): seq<int> {
    Encode([ManufacturerAd(Packet(color, symbols, tag))])
  }

  // ---------- the queues ----------

  class MsgQueues {
    const queue: array2<int>
    const head: array<nat>
    const unsent: array<bool>

    ghost predicate Valid()
      reads this, head
    {
      && queue.Length0 == head.Length == unsent.Length == COLORS_UNLOCKED && queue.Length1 == MAX_MSG_SIZE
      && forall c :: 0 <= c < COLORS_UNLOCKED ==> head[c] <= MAX_MSG_SIZE
    }

    ghost function Footprint(): set<object> {
      {queue, head, unsent}
    }

    ghost function Queued(c: nat): seq<int>
      reads this, head, queue
      requires Valid() && c < COLORS_UNLOCKED
    {
      seq(head[c], i requires 0 <= i < head[c] && head[c] <= queue.Length1 reads queue, head => queue[c, i])
    }

    constructor ()
      ensures Valid() && fresh(queue) && fresh(head) && fresh(unsent)
      ensures forall c: nat :: c < COLORS_UNLOCKED ==> Queued(c) == []
    {
      queue := new int[COLORS_UNLOCKED, MAX_MSG_SIZE]((_, _) => 0);
      head := new nat[COLORS_UNLOCKED](_ => 0);
      unsent := new bool[COLORS_UNLOCKED](_ => false);
    }

    /** A full queue drops the symbol. */
    method Push(color: nat, symbol: int)
      requires Valid() && color < COLORS_UNLOCKED
      modifies queue, head, unsent
      ensures Valid()
      ensures Queued(color) == FirstSymbols(old(Queued(color)) + [symbol])
      ensures forall c: nat :: c < COLORS_UNLOCKED && c != color ==>
                Queued(c) == old(Queued(c)) && unsent[c] == old(unsent[c])
      ensures |old(Queued(color))| < MAX_MSG_SIZE ==> unsent[color]
    {
      if head[color] > MAX_MSG_SIZE - 1 {
        return;
      }
      queue[color, head[color]] := symbol;
      head[color] := head[color] + 1;
      unsent[color] := true;
    }

    /** Copy the queue of a colour out and empty it. */
    method Pop(color: nat, msg: array<int>) returns (size: nat)
      requires Valid() && color < COLORS_UNLOCKED && msg.Length >= MAX_MSG_SIZE
      modifies head, msg
      ensures Valid() && size == |old(Queued(color))| && msg[..size] == old(Queued(color))
      ensures Queued(color) == []
      ensures forall c: nat :: c < COLORS_UNLOCKED && c != color ==> Queued(c) == old(Queued(c))
    {
      var i := 0;
      size := head[color];
      ghost var was := Queued(color);
      while head[color] >= 0
        invariant Valid() && i <= size
        invariant head[color] == size - i && (i == 0 || head[color] > 0)
        invariant forall c :: 0 <= c < COLORS_UNLOCKED && c != color ==> head[c] == old(head[c])
        invariant msg[..i] == was[..i]
        decreases head[color]
      {
        msg[i] := queue[color, i];
        i := i + 1;
        if head[color] > 0 {
          head[color] := head[color] - 1;
        }
        if head[color] == 0 {
          break;
        }
      }
    }

    /** The scan response of message advertising: the queue of the colour is popped into it. */
    method MsgAdvertisingStart(color: nat, tag: Tag) returns (response: seq<int>)
      requires Valid() && color < COLORS_UNLOCKED
      modifies head
      ensures Valid() && Queued(color) == []
      ensures forall c: nat :: c < COLORS_UNLOCKED && c != color ==> Queued(c) == old(Queued(c))
      ensures response == ScanResponse(color, old(Queued(color)), tag)
      ensures |response| <= ADV_MAX_SIZE
    {
      var msg := new int[50];
      var size := Pop(color, msg);
      if size > MAX_MSG_SIZE {
        size := MAX_MSG_SIZE;
      }
      var packet := BuildPacket(color, msg, size, tag);
      response := ManufacturerData(packet);
      EncodeSingle(ManufacturerAd(packet));
    }
  }

  /** The lines of msg_non_conn_advertising_start that fill the message buffer. */
  method BuildPacket(color: int, msg: array<int>, size: nat, tag: Tag) returns (packet: seq<int>)
    requires size <= MAX_MSG_SIZE <= msg.Length
    ensures packet == Packet(color, msg[..size], tag)
  {
    var message := new int[50];
    message[0] := MSG_FLAG;
    message[1] := color;
    var j := 0;
    var i := 2;
    while i <= size + 1
      invariant j == i - 2 && j <= size
      invariant message[0] == MSG_FLAG && message[1] == color
      invariant forall k :: 0 <= k < j ==> message[k + 2] == msg[k]
    {
      message[i] := msg[j];
      j := j + 1;
      i := i + 1;
    }
    j := j + 2;
    message[j] := tag.first;
    message[j + 1] := tag.second;
    packet := message[..size + 2 + MSG_TAG_LENGTH];
  }

  // ---------- the tag ring ----------

  /** The last four of the accepted tags, before which the ring holds zero tags. */
  function Window(accepted: seq<Tag>): (w: seq<Tag>)
    ensures |w| == MSG_TAG_QUEUE_LENGTH
  {
    var all := [ZERO_TAG, ZERO_TAG, ZERO_TAG, ZERO_TAG] + accepted;
    all[|all| - MSG_TAG_QUEUE_LENGTH..]
  }

  lemma WindowAfter(accepted: seq<Tag>, tag: Tag)
    ensures Window(accepted + [tag]) == Window(accepted)[1..] + [tag]
  {
  }

  lemma WindowHolds(accepted: seq<Tag>, tag: Tag)
    ensures tag in Window(accepted) <==>
            || (tag == ZERO_TAG && |accepted| < MSG_TAG_QUEUE_LENGTH)
            || exists i :: |accepted| - MSG_TAG_QUEUE_LENGTH <= i < |accepted| && 0 <= i && accepted[i] == tag
  {
    var all := [ZERO_TAG, ZERO_TAG, ZERO_TAG, ZERO_TAG] + accepted;
    var w := Window(accepted);
    assert forall k :: 0 <= k < 4 ==> w[k] == all[|accepted| + k];
    if tag in w {
      var k :| 0 <= k < 4 && w[k] == tag;
      if |accepted| + k >= 4 {
        assert accepted[|accepted| + k - 4] == tag;
      }
    }
    if tag == ZERO_TAG && |accepted| < MSG_TAG_QUEUE_LENGTH {
      assert w[0] == ZERO_TAG;
    }
    if i :| |accepted| - MSG_TAG_QUEUE_LENGTH <= i < |accepted| && 0 <= i && accepted[i] == tag {
      assert w[i - |accepted| + 4] == tag;
    }
  }

  /** The tags accepted out of a stream of received ones. */
  function Accepted(accepted: seq<Tag>, received: seq<Tag>): seq<Tag>
    decreases |received|
  {
    if received == [] then accepted
    else Accepted(if received[0] in Window(accepted) then accepted else accepted + [received[0]], received[1..])
  }

  /** Equal tags are far apart. */
  predicate Spaced(accepted: seq<Tag>) {
    forall i, j :: 0 <= i < j < |accepted| && accepted[i] == accepted[j] ==> j - i > MSG_TAG_QUEUE_LENGTH
  }

  /** Duplicate suppression over whole runs: between two accepted messages with equal tags
      at least four others are accepted. */
  lemma {:induction false} AcceptedAreSpaced(accepted: seq<Tag>, received: seq<Tag>)
    requires Spaced(accepted)
    ensures Spaced(Accepted(accepted, received))
    ensures accepted <= Accepted(accepted, received)
    decreases |received|
  {
    if received != [] {
      if received[0] !in Window(accepted) {
        NewTagIsSpaced(accepted, received[0]);
      }
      AcceptedAreSpaced(if received[0] in Window(accepted) then accepted else accepted + [received[0]], received[1..]);
    }
  }

  function Wrap(i: nat): (r: nat)
    requires i < 2 * MSG_TAG_QUEUE_LENGTH
    ensures r < MSG_TAG_QUEUE_LENGTH
  {
    if i < MSG_TAG_QUEUE_LENGTH then i else i - MSG_TAG_QUEUE_LENGTH
  }

  /** Accepting a tag that is not in the window keeps the tags apart. */
  lemma NewTagIsSpaced(accepted: seq<Tag>, tag: Tag)
    requires Spaced(accepted) && tag !in Window(accepted)
    ensures Spaced(accepted + [tag])
  {
    WindowHolds(accepted, tag);
  }

  /** A ring read from the slot `h` on. */
  function ReadFrom(ring: seq<Tag>, h: nat): (r: seq<Tag>)
    requires |ring| == MSG_TAG_QUEUE_LENGTH && h < MSG_TAG_QUEUE_LENGTH
    ensures |r| == MSG_TAG_QUEUE_LENGTH
  {
    [ring[h], ring[Wrap(h + 1)], ring[Wrap(h + 2)], ring[Wrap(h + 3)]]
  }

  /** Overwriting the slot at `h` drops the oldest tag and appends the new one. */
  lemma RingShifts(ring: seq<Tag>, h: nat, tag: Tag)
    requires |ring| == MSG_TAG_QUEUE_LENGTH && h < MSG_TAG_QUEUE_LENGTH
    ensures ReadFrom(ring[h := tag], Wrap(h + 1)) == ReadFrom(ring, h)[1..] + [tag]
  {
  }

  class TagRing {
    const ring: array2<int>
    var head: nat
    ghost var accepted: seq<Tag>

    ghost function Slot(i: nat): Tag
      reads this, ring
      requires i < MSG_TAG_QUEUE_LENGTH == ring.Length0 && ring.Length1 == MSG_TAG_LENGTH
    {
      Tag(ring[i, 0], ring[i, 1])
    }

    ghost function Slots(): seq<Tag>
      reads this, ring
      requires MSG_TAG_QUEUE_LENGTH == ring.Length0 && ring.Length1 == MSG_TAG_LENGTH
    {
      [Slot(0), Slot(1), Slot(2), Slot(3)]
    }

    /** The ring read from its oldest slot is the window of the accepted tags. */
    ghost predicate Valid()
      reads this, ring
    {
      && ring.Length0 == MSG_TAG_QUEUE_LENGTH && ring.Length1 == MSG_TAG_LENGTH && head < MSG_TAG_QUEUE_LENGTH
      && ReadFrom(Slots(), head) == Window(accepted)
    }

    constructor ()
      ensures Valid() && accepted == [] && fresh(ring)
    {
      ring := new int[MSG_TAG_QUEUE_LENGTH, MSG_TAG_LENGTH]((_, _) => 0);
      head := 0;
      accepted := [];
      new;
      assert Window([]) == [ZERO_TAG, ZERO_TAG, ZERO_TAG, ZERO_TAG];
    }

    method Record(tag: Tag)
      requires Valid()
      modifies this, ring
      ensures Valid() && accepted == old(accepted) + [tag]
    {
      WindowAfter(accepted, tag);
      RingShifts(Slots(), head, tag);
      ring[head, 0] := tag.first;
      ring[head, 1] := tag.second;
      head := head + 1;
      if head == MSG_TAG_QUEUE_LENGTH {
        head := 0;
      }
      accepted := accepted + [tag];
      assert Slots() == old(Slots())[old(head) := tag];
    }

    /** Search backwards from the most recent slot. */
    method InQueue(tag: Tag) returns (found: bool)
      requires Valid()
      ensures found <==> tag in Window(accepted)
    {
      var recent := if head == 0 then MSG_TAG_QUEUE_LENGTH - 1 else head - 1;
      var i := 0;
      while i < MSG_TAG_QUEUE_LENGTH
        invariant 0 <= i <= MSG_TAG_QUEUE_LENGTH
        invariant i < MSG_TAG_QUEUE_LENGTH ==> recent == Wrap(head + MSG_TAG_QUEUE_LENGTH - 1 - i)
        invariant recent < MSG_TAG_QUEUE_LENGTH
        invariant forall k :: MSG_TAG_QUEUE_LENGTH - i <= k < MSG_TAG_QUEUE_LENGTH ==> Window(accepted)[k] != tag
      {
        assert Slots()[recent] == Window(accepted)[MSG_TAG_QUEUE_LENGTH - 1 - i];
        var same := SameBytes(recent, tag);
        if same {
          return true;
        }
        recent := if recent == 0 then MSG_TAG_QUEUE_LENGTH - 1 else recent - 1;
        i := i + 1;
      }
      return false;
    }

    /** The inner loop: one bit of the match mask per byte of the tag. */
    method SameBytes(i: nat, tag: Tag) returns (same: bool)
      requires Valid() && i < MSG_TAG_QUEUE_LENGTH
      ensures same <==> Slot(i) == tag
    {
      var mask: bv8 := 0;
      var j := 0;
      while j < MSG_TAG_LENGTH
        invariant 0 <= j <= MSG_TAG_LENGTH
        invariant mask == (if j >= 1 && ring[i, 0] == tag.first then 1 else 0)
                          | (if j >= 2 && ring[i, 1] == tag.second then 2 else 0)
      {
        if ring[i, j] == (if j == 0 then tag.first else tag.second) {
          mask := mask | (if j == 0 then 1 else 2);
        }
        j := j + 1;
      }
      return mask == 3;
    }
  }

  // ---------- the receiver ----------

  /** Manufacturer data of a Jewelbot: company identifier, flag and at least one byte more. */
  predicate Jewelbot(d: seq<int>) {
    |d| >= 2 && d[0] == 0x03 && d[1] == 0x21
  }

  /** What the receiver reads is there, and a message that it takes has at least its colour
      and tag and fits the playback record. */
  predicate Sane(d: seq<int>, known: Option<int>) {
    Jewelbot(d) && known.Some? ==>
      && |d| >= 3
      && (d[2] == MSG_FLAG ==>
            && |d| >= 4
            && (known == Some(d[MSG_REC_START_INDEX]) ==> 6 <= |d| <= 6 + MAX_MSG_SIZE))
  }

  /** A message from a sender known under the colour it names. */
  predicate FromFriend(d: seq<int>, known: Option<int>) {
    Jewelbot(d) && |d| >= 6 && d[2] == MSG_FLAG && known == Some(d[MSG_REC_START_INDEX])
  }

  function PlaybackOf(d: seq<int>): Playback
    requires |d| >= 6
  {
    Playback(d[MSG_REC_START_INDEX], d[MSG_REC_START_INDEX + 1..|d| - MSG_TAG_LENGTH])
  }

  function TagOf(d: seq<int>): Tag
    requires |d| >= 6
  {
    Tag(d[|d| - 2], d[|d| - 1])
  }

  function ManufacturerDataIn(bytes: seq<int>): Option<seq<int>>
    requires Readable(MANUFACTURER_SPECIFIC_DATA, bytes, 0)
  {
    Parse(MANUFACTURER_SPECIFIC_DATA, bytes, 0)
  }

  /** End to end. Whatever is pushed on a colour, the scan response fits the advertising
      packet, and a receiver parses it to a message that counts as one from a friend exactly
      when it has the sender under that colour, and that plays the colour with the first
      eighteen symbols in order. */
  lemma MessageArrives(pushed: seq<int>, color: int, tag: Tag, known: Option<int>)
    ensures var bytes := ScanResponse(color, FirstSymbols(pushed), tag);
            && |bytes| <= ADV_MAX_SIZE && WellFormed(bytes, 0)
            && Readable(MANUFACTURER_SPECIFIC_DATA, bytes, 0)
            && ManufacturerDataIn(bytes).Some?
            && var d := ManufacturerDataIn(bytes).value;
               && Sane(d, known) && |d| >= 6
               && (FromFriend(d, known) <==> known == Some(color))
               && PlaybackOf(d) == Playback(color, FirstSymbols(pushed))
               && TagOf(d) == tag
  {
    var ad := ManufacturerAd(Packet(color, FirstSymbols(pushed), tag));
    assert ad.Fits();
    ParseEncoded([ad], MANUFACTURER_SPECIFIC_DATA);
    EncodeSingle(ad);
    assert First([ad], MANUFACTURER_SPECIFIC_DATA) == Some(ad.data);
    assert ad.data[4..|ad.data| - 2] == FirstSymbols(pushed);
  }

  /** Pushing one symbol after the other keeps the first eighteen. */
  function PushAll(q: seq<int>, symbols: seq<int>): seq<int>
    decreases |symbols|
  {
    if symbols == [] then q else PushAll(FirstSymbols(q + [symbols[0]]), symbols[1..])
  }

  lemma {:induction false} PushAllKeepsFirst(q: seq<int>, symbols: seq<int>)
    requires |q| <= MAX_MSG_SIZE
    ensures PushAll(q, symbols) == FirstSymbols(q + symbols)
    decreases |symbols|
  {
    if symbols == [] {
      assert q + symbols == q;
    } else {
      PushAllKeepsFirst(FirstSymbols(q + [symbols[0]]), symbols[1..]);
      assert q + [symbols[0]] + symbols[1..] == q + symbols;
    }
  }

  class MsgReceiver {
    const friends: FriendsList
    const ring: TagRing
    const pendingMsg: array<int>
    var pendingLength: nat
    var pendingColor: int
    var hasMessage: bool

    ghost predicate Valid()
      reads this, friends, friends.slots, ring, ring.ring, pendingMsg
    {
      friends.Valid() && ring.Valid() && Spaced(ring.accepted)
      && pendingMsg.Length == MAX_MSG_SIZE && pendingLength <= MAX_MSG_SIZE
    }

    ghost function Footprint(): set<object> {
      {this, friends, friends.slots, ring, ring.ring, pendingMsg}
    }

    ghost function Pending(): Playback
      reads this, pendingMsg
      requires pendingLength <= pendingMsg.Length
    {
      Playback(pendingColor, pendingMsg[..pendingLength])
    }

    constructor (list: FriendsList)
      requires list.Valid()
      ensures Valid() && friends == list && !hasMessage && ring.accepted == []
    {
      friends := list;
      ring := new TagRing();
      pendingMsg := new int[MAX_MSG_SIZE](_ => 0);
      pendingLength, pendingColor, hasMessage := 0, 0, false;
    }

    method QueueMessageForPlay(msg: array<int>, msgLength: nat)
      requires pendingMsg.Length == MAX_MSG_SIZE && 1 <= msgLength <= MAX_MSG_SIZE + 1 && msgLength <= msg.Length
      requires msg != pendingMsg
      modifies this`pendingLength, this`pendingColor, this`hasMessage, pendingMsg
      ensures pendingLength <= MAX_MSG_SIZE && Pending() == Playback(msg[0], msg[1..msgLength]) && hasMessage
    {
      var j := 0;
      var i := 1;
      while i < msgLength
        invariant 1 <= i <= msgLength && j == i - 1
        invariant forall k :: 0 <= k < j ==> pendingMsg[k] == msg[k + 1]
      {
        pendingMsg[j] := msg[i];
        j := j + 1;
        i := i + 1;
      }
      assert pendingMsg[..msgLength - 1] == msg[1..msgLength];
      pendingLength := msgLength - 1;
      pendingColor := msg[0];
      hasMessage := true;
    }

    /** The copies out of the manufacturer data. */
    method CopyMessage(d: seq<int>) returns (msg: array<int>, msgLength: nat, tag: Tag)
      requires 6 <= |d| <= 6 + MAX_MSG_SIZE
      ensures fresh(msg) && msg.Length == 50 && msgLength == |d| - 5
      ensures msg[..msgLength] == d[MSG_REC_START_INDEX..|d| - MSG_TAG_LENGTH] && tag == TagOf(d)
    {
      msg := new int[50];
      msgLength := |d| - MSG_REC_START_INDEX - MSG_TAG_LENGTH;
      var j := 0;
      var i := MSG_REC_START_INDEX;
      while i < |d| - MSG_TAG_LENGTH
        invariant MSG_REC_START_INDEX <= i <= |d| - MSG_TAG_LENGTH && j == i - MSG_REC_START_INDEX
        invariant forall k :: 0 <= k < j ==> msg[k] == d[MSG_REC_START_INDEX + k]
      {
        msg[j] := d[i];
        j := j + 1;
        i := i + 1;
      }
      tag := Tag(d[|d| - MSG_TAG_LENGTH], d[|d| - 1]);
    }

    /** A message of a friend is taken iff its tag is not among the last four accepted. */
    method TakeMessage(d: seq<int>) returns (taken: bool)
      requires Valid() && 6 <= |d| <= 6 + MAX_MSG_SIZE
      modifies this`pendingLength, this`pendingColor, this`hasMessage, pendingMsg, ring, ring.ring
      ensures Valid() && (taken <==> TagOf(d) !in Window(old(ring.accepted)))
      ensures if taken then Pending() == PlaybackOf(d) && hasMessage && ring.accepted == old(ring.accepted) + [TagOf(d)]
              else Pending() == old(Pending()) && hasMessage == old(hasMessage) && ring.accepted == old(ring.accepted)
    {
      var msg, msgLength, tag := CopyMessage(d);
      var seen := ring.InQueue(tag);
      if seen {
        return false;
      }
      ghost var copied := msg[..msgLength];
      assert copied[0] == d[MSG_REC_START_INDEX] && copied[1..] == PlaybackOf(d).symbols;
      QueueMessageForPlay(msg, msgLength);
      NewTagIsSpaced(ring.accepted, tag);
      ring.Record(tag);
      return true;
    }

    /** The message branch of the scan report handler. */
    method ScanReport(bytes: array<int>, from: int) returns (taken: bool)
      requires Valid() && Readable(MANUFACTURER_SPECIFIC_DATA, bytes[..], 0)
      requires ManufacturerDataIn(bytes[..]).Some? ==> Sane(ManufacturerDataIn(bytes[..]).value, friends.Known(from))
      modifies this`pendingLength, this`pendingColor, this`hasMessage, pendingMsg, ring, ring.ring
      ensures Valid() && (taken <==> Takes(old(bytes[..]), friends.Known(from), old(ring.accepted)))
      ensures if taken then
                var d := ManufacturerDataIn(old(bytes[..])).value;
                Pending() == PlaybackOf(d) && hasMessage && ring.accepted == old(ring.accepted) + [TagOf(d)]
              else Pending() == old(Pending()) && hasMessage == old(hasMessage) && ring.accepted == old(ring.accepted)
    {
      var data := ReportParse(MANUFACTURER_SPECIFIC_DATA, bytes);
      if data.None? || !Jewelbot(data.value) {
        return false;
      }
      var d := data.value;
      var index := friends.FriendFound(from);
      if index.None? || d[2] != MSG_FLAG || friends.slots[index.value].color != d[MSG_REC_START_INDEX] {
        return false;
      }
      taken := TakeMessage(d);
    }
  }

  predicate Takes(bytes: seq<int>, known: Option<int>, accepted: seq<Tag>)
    requires Readable(MANUFACTURER_SPECIFIC_DATA, bytes, 0)
  {
    var data := ManufacturerDataIn(bytes);
    data.Some? && FromFriend(data.value, known) && TagOf(data.value) !in Window(accepted)
  }

  // ---------- both ends ----------

  method PushSymbols(sender: MsgQueues, color: nat, symbols: seq<int>)
    requires sender.Valid() && color < COLORS_UNLOCKED
    modifies sender.queue, sender.head, sender.unsent
    ensures sender.Valid() && sender.Queued(color) == FirstSymbols(old(sender.Queued(color)) + symbols)
    ensures forall c: nat :: c < COLORS_UNLOCKED && c != color ==> sender.Queued(c) == old(sender.Queued(c))
  {
    ghost var before := sender.Queued(color);
    var i := 0;
    while i < |symbols|
      invariant 0 <= i <= |symbols| && sender.Valid()
      invariant PushAll(sender.Queued(color), symbols[i..]) == PushAll(before, symbols)
      invariant forall c: nat :: c < COLORS_UNLOCKED && c != color ==> sender.Queued(c) == old(sender.Queued(c))
    {
      sender.Push(color, symbols[i]);
      i := i + 1;
    }
    PushAllKeepsFirst(before, symbols);
  }

  /** The receiving end: the scan response of a message arrives. */
  method Receive(receiver: MsgReceiver, response: seq<int>,
          ghost color: nat, ghost symbols: seq<int>, ghost tag: Tag, from: int)
    returns (taken: bool)
    requires receiver.Valid() && response == ScanResponse(color, FirstSymbols(symbols), tag)
    modifies receiver`pendingLength, receiver`pendingColor, receiver`hasMessage, receiver.pendingMsg,
             receiver.ring, receiver.ring.ring
    ensures taken <==> old(receiver.friends.Known(from)) == Some(color) && tag !in Window(old(receiver.ring.accepted))
    ensures receiver.Valid()
    ensures taken ==> receiver.Pending() == Playback(color, FirstSymbols(symbols)) && receiver.hasMessage
    ensures !taken ==> receiver.Pending() == old(receiver.Pending()) && receiver.hasMessage == old(receiver.hasMessage)
  {
    MessageArrives(symbols, color, tag, receiver.friends.Known(from));
    var bytes := new int[|response|](i requires 0 <= i < |response| => response[i]);
    assert bytes[..] == response;
    taken := receiver.ScanReport(bytes, from);
  }

  /** Symbols pushed on a colour, sent as one scan response and received by another bracelet:
      the message is taken iff the receiver has the sender under that colour and has not just
      accepted the tag, and then the colour is played with the first eighteen symbols. The
      sender's queue of the colour is empty afterwards, its other queues are as before. */
  method Exchange(sender: MsgQueues, color: nat, symbols: seq<int>, tag: Tag, receiver: MsgReceiver, from: int)
    returns (taken: bool)
    requires sender.Valid() && color < COLORS_UNLOCKED && sender.Queued(color) == [] && receiver.Valid()
    requires sender.Footprint() !! receiver.Footprint()
    modifies sender.queue, sender.head, sender.unsent
    modifies receiver`pendingLength, receiver`pendingColor, receiver`hasMessage, receiver.pendingMsg,
             receiver.ring, receiver.ring.ring
    ensures taken <==> old(receiver.friends.Known(from)) == Some(color) && tag !in Window(old(receiver.ring.accepted))
    ensures receiver.Valid()
    ensures taken ==> receiver.Pending() == Playback(color, FirstSymbols(symbols)) && receiver.hasMessage
    ensures !taken ==> receiver.Pending() == old(receiver.Pending()) && receiver.hasMessage == old(receiver.hasMessage)
    ensures sender.Valid() && sender.Queued(color) == []
    ensures forall c: nat :: c < COLORS_UNLOCKED && c != color ==> sender.Queued(c) == old(sender.Queued(c))
  {
    PushSymbols(sender, color, symbols);
    assert [] + symbols == symbols;
    var response := sender.MsgAdvertisingStart(color, tag);
    taken := Receive(receiver, response, color, symbols, tag, from);
  }
}
