/** Direct test mode (Bluetooth Core Specification, volume 6, part F): the command state
    machine, the test packets and the packet report. */
module DirectTestMode {
  import opened TestPatterns

  const PDU_SIZE: nat := 39
  const PHYS_CH_MAX: int := 39

  const LE_RESET := 0
  const LE_RECEIVER_TEST := 1
  const LE_TRANSMITTER_TEST := 2
  const LE_TEST_END := 3
  const VENDOR_SPECIFIC: int := 0xFFFF_FFFF

  const SUCCESS := 0
  const ILLEGAL_CHANNEL := 1
  const INVALID_STATE := 2
  const ILLEGAL_LENGTH := 3
  const ILLEGAL_CONFIGURATION := 4
  const UNINITIALIZED := 5

  const EVENT_SUCCESS := 0
  const EVENT_ERROR := 1

  datatype Phase = Uninitialized | Idle | TransmitterTest | CarrierTest | ReceiverTest

  datatype State = State(phase: Phase, rxCount: int, pdu: seq<int>, event: int, newEvent: bool, txPower: int, timer: int) {
    /** Only a receiver test counts. */
    predicate Valid() {
      |pdu| == PDU_SIZE && 0 <= rxCount < 0x1_0000 && (phase != ReceiverTest ==> rxCount == 0)
    }
  }

  function ZeroPdu(): (z: seq<int>)
    ensures |z| == PDU_SIZE
  {
    seq(PDU_SIZE, i requires 0 <= i < PDU_SIZE => 0)
  }

  // ---------- packets ----------

  function Payload(kind: int, length: nat): seq<int>
    requires length <= PAYLOAD_MAX_SIZE
  {
    seq(length, k requires 0 <= k < length => PatternByte(kind, k))
  }

  /** A packet counts when its payload is the pattern its header announces. */
  predicate CheckPdu(pdu: seq<int>)
    requires |pdu| == PDU_SIZE
  {
    var kind := pdu[0] % 16;
    var length := pdu[1];
    0 <= kind <= 2 && 0 <= length <= PAYLOAD_MAX_SIZE && pdu[2..2 + length] == Payload(kind, length)
  }

  /** The packet a transmitter test sends; bytes past the payload are left over. */
  function BuildPdu(was: seq<int>, kind: int, length: nat): seq<int>
    requires |was| == PDU_SIZE && length <= PAYLOAD_MAX_SIZE
  {
    [kind % 16, length] + Payload(kind, length) + was[2 + length..]
  }

  // ---------- commands ----------

  function TestDone(s: State): State {
    s.(rxCount := 0, phase := Idle)
  }

  predicate TxPowerOk(power: int) {
    var low := power % 0x100;
    var signed := if low < 0x80 then low else low - 0x100;
    -40 <= signed <= 4 && low % 4 == 0
  }

  /** A vendor specific command hides in the length, its option in the frequency. */
  function Vendor(s: State, cmd: int, option: int): (State, int) {
    if cmd == 0 || cmd == 1 then (s.(phase := CarrierTest), SUCCESS)
    else if cmd == 2 then if TxPowerOk(option) then (s.(txPower := option), SUCCESS) else (s, ILLEGAL_CONFIGURATION)
    else if cmd == 3 then if 0 <= option <= 2 then (s.(timer := option), SUCCESS) else (s, ILLEGAL_CONFIGURATION)
    else (s, SUCCESS)
  }

  /** The pattern is copied by the length as given, but only its low byte is checked: a
      longer pattern must not pass the check, or it overruns the packet. */
  predicate Copyable(length: nat, payload: int) {
    0 <= payload <= 2 ==> length < 0x100 || length % 0x100 > PAYLOAD_MAX_SIZE
  }

  function Transmit(s: State, freq: int, length: nat, payload: int): (State, int)
    requires s.Valid() && Copyable(length, payload)
  {
    var low := length % 0x100;
    if low > PAYLOAD_MAX_SIZE then (s.(event := EVENT_ERROR), ILLEGAL_LENGTH)
    else if payload == VENDOR_SPECIFIC then Vendor(s.(pdu := WithHeader(s.pdu, length, payload)), length, freq)
    else if payload == 0 || payload == 1 || payload == 2 then
      (s.(pdu := BuildPdu(s.pdu, payload, length), phase := TransmitterTest), SUCCESS)
    else (s.(pdu := WithHeader(s.pdu, length, payload), event := EVENT_ERROR), ILLEGAL_CONFIGURATION)
  }

  /** The two header bytes of a packet. */
  function WithHeader(pdu: seq<int>, length: nat, payload: int): seq<int>
    requires |pdu| == PDU_SIZE
  {
    pdu[0 := payload % 16][1 := length % 0x100]
  }

  function Command(s0: State, cmd: int, freq: int, length: nat, payload: int): (r: (State, int))
    requires s0.Valid() && Copyable(length, payload)
    ensures r.0.Valid()
  {
    var s := s0.(newEvent := true, event := EVENT_SUCCESS);
    if s.phase == Uninitialized then (s, UNINITIALIZED)
    else if cmd == LE_RESET then (TestDone(s), SUCCESS)
    else if cmd == LE_TEST_END then
      if s.phase == Idle then (s.(event := EVENT_ERROR), INVALID_STATE)
      else (TestDone(s.(event := Report(s.rxCount))), SUCCESS)
    else if s.phase != Idle then (s.(event := EVENT_ERROR), INVALID_STATE)
    else if freq > PHYS_CH_MAX then (s.(event := EVENT_ERROR), ILLEGAL_CHANNEL)
    else
      var t := s.(rxCount := 0);
      if cmd == LE_RECEIVER_TEST then (t.(pdu := ZeroPdu(), phase := ReceiverTest), SUCCESS)
      else if cmd == LE_TRANSMITTER_TEST then Transmit(t, freq, length, payload)
      else (t, SUCCESS)
  }

  /** 0x8000 | count in sixteen bits. */
  function Report(count: int): int {
    0x8000 + count % 0x8000
  }

  /** The end of a reception while the radio holds `packet`. */
  function Received(s: State, crcGood: bool, packet: seq<int>): (r: State)
    requires s.Valid() && |packet| == PDU_SIZE
    ensures r.Valid()
  {
    if s.phase != ReceiverTest then s
    else s.(rxCount := if crcGood && CheckPdu(packet) then (s.rxCount + 1) % 0x1_0000 else s.rxCount, pdu := ZeroPdu())
  }

  // ---------- results ----------

  /** Same packet type, length and payload. */
  predicate SamePacket(p: seq<int>, q: seq<int>)
    requires |p| == |q| == PDU_SIZE
  {
    p[0] % 16 == q[0] % 16 && p[1] == q[1] && 0 <= q[1] <= PAYLOAD_MAX_SIZE && p[2..2 + q[1]] == q[2..2 + q[1]]
  }

  /** A transmitter command with this packet type and length starts a test sending `q`. */
  ghost predicate Transmits(s: State, length: nat, payload: int, q: seq<int>)
    requires s.Valid() && Copyable(length, payload)
  {
    var r := Command(s, LE_TRANSMITTER_TEST, 0, length, payload);
    r.1 == SUCCESS && r.0.phase == TransmitterTest && r.0.pdu == q
  }

  /** What the receiver accepts is exactly what an idle transmitter can be made to send, up to
      the high header bits and the bytes after the payload. */
  lemma AcceptsExactlyWhatIsSent(s: State, pdu: seq<int>)
    requires s.Valid() && s.phase == Idle && |pdu| == PDU_SIZE
    ensures CheckPdu(pdu) <==>
            exists length: nat, payload: int, q: seq<int> ::
              Copyable(length, payload) && |q| == PDU_SIZE && Transmits(s, length, payload, q) && SamePacket(pdu, q)
  {
    if CheckPdu(pdu) {
      var q := BuildPdu(s.pdu, pdu[0] % 16, pdu[1]);
      BuiltPayload(s.pdu, pdu[0] % 16, pdu[1]);
      assert Transmits(s, pdu[1], pdu[0] % 16, q) && SamePacket(pdu, q);
    }
    forall length: nat, payload: int, q: seq<int> |
      Copyable(length, payload) && |q| == PDU_SIZE && Transmits(s, length, payload, q) && SamePacket(pdu, q)
      ensures CheckPdu(pdu)
    {
      BuiltPayload(s.pdu, payload, length);
    }
  }

  lemma BuiltPayload(was: seq<int>, kind: int, length: nat)
    requires |was| == PDU_SIZE && 0 <= kind <= 2 && length <= PAYLOAD_MAX_SIZE
    ensures var q := BuildPdu(was, kind, length);
            |q| == PDU_SIZE && q[0] == kind && q[1] == length && q[2..2 + length] == Payload(kind, length)
  {
  }

  /** A transmitter command that gets as far as writing the packet header. */
  predicate WritesHeader(s: State, cmd: int, freq: int, length: nat) {
    s.phase == Idle && freq <= PHYS_CH_MAX && cmd == LE_TRANSMITTER_TEST && length % 0x100 <= PAYLOAD_MAX_SIZE
  }

  /** A rejected command changes neither the test state nor the count nor the settings, in
      any phase. It leaves the packet alone iff it does not get as far as the header, or the
      header already reads the same. */
  lemma RejectedChangesNoTest(s: State, cmd: int, freq: int, length: nat, payload: int)
    requires s.Valid() && Copyable(length, payload)
    requires Command(s, cmd, freq, length, payload).1 != SUCCESS
    ensures var t := Command(s, cmd, freq, length, payload).0;
            && t.phase == s.phase && t.rxCount == s.rxCount && t.txPower == s.txPower && t.timer == s.timer
            && (t.pdu == s.pdu <==>
                  !WritesHeader(s, cmd, freq, length) || (s.pdu[0] == payload % 16 && s.pdu[1] == length % 0x100))
  {
    var h := WithHeader(s.pdu, length, payload);
    assert h[0] == payload % 16 && h[1] == length % 0x100;
    assert s.pdu[0] == h[0] && s.pdu[1] == h[1] ==> h == s.pdu;
  }

  /** An unknown packet type is rejected after the header has been written. */
  lemma RejectedWritesHeader(s: State)
    requires s.Valid() && s.phase == Idle && s.pdu == ZeroPdu()
    ensures var r := Command(s, LE_TRANSMITTER_TEST, 0, 0, 3);
            r.1 == ILLEGAL_CONFIGURATION && r.0.pdu == s.pdu[0 := 3]
  {
    assert s.pdu[0 := 3][1 := 0] == s.pdu[0 := 3];
  }

  // ---------- whole runs ----------

  datatype Happening =
    | Cmd(cmd: int, freq: int, length: nat, payload: int)
    | Packet(crcGood: bool, packet: seq<int>)

  predicate Possible(h: Happening) {
    match h
    case Cmd(_, _, length, payload) => Copyable(length, payload)
    case Packet(_, packet) => |packet| == PDU_SIZE
  }

  function Step(s: State, h: Happening): (t: State)
    requires s.Valid() && Possible(h)
    ensures t.Valid()
  {
    match h
    case Cmd(cmd, freq, length, payload) => Command(s, cmd, freq, length, payload).0
    case Packet(crcGood, packet) => Received(s, crcGood, packet)
  }

  function Steps(s: State, hs: seq<Happening>): (t: State)
    requires s.Valid() && forall h :: h in hs ==> Possible(h)
    ensures t.Valid()
    decreases |hs|
  {
    if hs == [] then s else Steps(Step(s, hs[0]), hs[1..])
  }

  /** What a tester sees: no test, a test that sends, or one that has received `good` packets. */
  datatype Test = NotReady | NoTest | Sending | Carrier | Receiving(good: nat)

  /** A command the standard or the vendor interface allows: a reset at any time, the end of a
      test while one runs, anything else on a legal channel while none does. */
  predicate Legal(t: Test, cmd: int, freq: int, length: nat, payload: int) {
    && !t.NotReady?
    && (cmd == LE_RESET
        || (cmd == LE_TEST_END && !t.NoTest?)
        || (cmd != LE_TEST_END && t.NoTest? && freq <= PHYS_CH_MAX
            && (cmd == LE_TRANSMITTER_TEST ==> LegalTransmission(freq, length, payload))))
  }

  /** At most 37 bytes of one of the three patterns, or a vendor command: the length selects
      it, and transmit powers and timers are checked. */
  predicate LegalTransmission(freq: int, length: nat, payload: int) {
    && length % 0x100 <= PAYLOAD_MAX_SIZE
    && (0 <= payload <= 2
        || (payload == VENDOR_SPECIFIC && (length == 2 ==> LegalPower(freq)) && (length == 3 ==> 0 <= freq <= 2)))
  }

  /** Multiples of four dBm from -40 to 4, in two's complement in the low byte. */
  predicate LegalPower(power: int) {
    exists n: int :: -10 <= n <= 1 && (4 * n - power) % 0x100 == 0
  }

  function TestAfter(t: Test, cmd: int, freq: int, length: nat, payload: int): Test {
    if !Legal(t, cmd, freq, length, payload) then t
    else if cmd == LE_RECEIVER_TEST then Receiving(0)
    else if cmd == LE_TRANSMITTER_TEST && payload != VENDOR_SPECIFIC then Sending
    else if cmd == LE_TRANSMITTER_TEST && length <= 1 then Carrier
    else NoTest
  }

  function Follow(t: Test, h: Happening): Test
    requires Possible(h)
  {
    match h
    case Cmd(cmd, freq, length, payload) => TestAfter(t, cmd, freq, length, payload)
    case Packet(crcGood, packet) => if t.Receiving? && crcGood && CheckPdu(packet) then Receiving(t.good + 1) else t
  }

  function FollowAll(t: Test, hs: seq<Happening>): Test
    requires forall h :: h in hs ==> Possible(h)
    decreases |hs|
  {
    if hs == [] then t else FollowAll(Follow(t, hs[0]), hs[1..])
  }

  /** The state shows the test; between two receptions the packet is blank. */
  predicate Shows(s: State, t: Test) {
    match t
    case NotReady => s.phase == Uninitialized
    case NoTest => s.phase == Idle
    case Sending => s.phase == TransmitterTest
    case Carrier => s.phase == CarrierTest
    case Receiving(good) => s.phase == ReceiverTest && s.rxCount == good % 0x1_0000 && s.pdu == ZeroPdu()
  }

  lemma PowerIsLegalIff(power: int)
    ensures TxPowerOk(power) <==> LegalPower(power)
  {
    var low := power % 0x100;
    if TxPowerOk(power) {
      var signed := if low < 0x80 then low else low - 0x100;
      var n := signed / 4;
      assert 4 * n == signed && -10 <= n <= 1;
      assert (signed - power) % 0x100 == 0 by {
        assert signed - power == 0x100 * (if low < 0x80 then -(power / 0x100) else -(power / 0x100) - 1);
      }
    }
    if LegalPower(power) {
      var n :| -10 <= n <= 1 && (4 * n - power) % 0x100 == 0;
      LowByte(n, power);
    }
  }

  lemma LowByte(n: int, power: int)
    requires -10 <= n <= 1 && (4 * n - power) % 0x100 == 0
    ensures power % 0x100 == if n >= 0 then 4 * n else 4 * n + 0x100
  {
    var k := (4 * n - power) / 0x100;
    assert power == 4 * n - 0x100 * k;
  }

  /** Every command is accepted iff it is legal, and moves the test as it should. */
  lemma CommandFollows(s: State, t: Test, cmd: int, freq: int, length: nat, payload: int)
    requires s.Valid() && Shows(s, t) && Copyable(length, payload)
    ensures var (u, code) := Command(s, cmd, freq, length, payload);
            && (code == SUCCESS <==> Legal(t, cmd, freq, length, payload))
            && Shows(u, TestAfter(t, cmd, freq, length, payload))
  {
    PowerIsLegalIff(freq);
  }

  /** Which code a command that is not legal gets. */
  lemma RejectionMeans(s: State, t: Test, cmd: int, freq: int, length: nat, payload: int)
    requires s.Valid() && Shows(s, t) && Copyable(length, payload)
    ensures var code := Command(s, cmd, freq, length, payload).1;
            && (code == UNINITIALIZED <==> t.NotReady?)
            && (code == INVALID_STATE <==>
                  (cmd == LE_TEST_END && t.NoTest?) || (cmd != LE_TEST_END && cmd != LE_RESET && !t.NotReady? && !t.NoTest?))
            && (code == ILLEGAL_CHANNEL <==> t.NoTest? && cmd != LE_TEST_END && cmd != LE_RESET && freq > PHYS_CH_MAX)
            && (code == ILLEGAL_LENGTH ==> length % 0x100 > PAYLOAD_MAX_SIZE && cmd == LE_TRANSMITTER_TEST)
            && (code == ILLEGAL_CONFIGURATION ==> length % 0x100 <= PAYLOAD_MAX_SIZE && !(0 <= payload <= 2))
  {
  }

  /** What the event of a command tells: the report of a test's end, or an error iff the
      command was rejected, but neither by a module that was never initialized nor for the
      value of a vendor setting. */
  lemma EventTells(s: State, t: Test, cmd: int, freq: int, length: nat, payload: int)
    requires s.Valid() && Shows(s, t) && Copyable(length, payload)
    ensures var (u, code) := Command(s, cmd, freq, length, payload);
            && u.newEvent
            && (code == SUCCESS && cmd == LE_TEST_END <==> u.event >= 0x8000)
            && (u.event == EVENT_ERROR <==>
                  && code != SUCCESS && code != UNINITIALIZED
                  && (code == ILLEGAL_CONFIGURATION ==> payload != VENDOR_SPECIFIC))
            && (u.event != EVENT_ERROR && u.event < 0x8000 ==> u.event == EVENT_SUCCESS)
  {
  }

  lemma StepFollows(s: State, t: Test, h: Happening)
    requires s.Valid() && Shows(s, t) && Possible(h)
    ensures Shows(Step(s, h), Follow(t, h))
  {
    match h
    case Cmd(cmd, freq, length, payload) => CommandFollows(s, t, cmd, freq, length, payload);
    case Packet(_, _) =>
      if t.Receiving? {
        ModAdd(t.good, 1);
      }
  }

  lemma ModAdd(a: int, b: int)
    ensures (a % 0x1_0000 + b) % 0x1_0000 == (a + b) % 0x1_0000
  {
  }

  /** Over every run of commands, resets and ends of tests included, and receptions, the state
      shows the test that runs and the good packets since it began, modulo 0x10000. */
  lemma {:induction false} StepsFollow(s: State, t: Test, hs: seq<Happening>)
    requires s.Valid() && Shows(s, t) && forall h :: h in hs ==> Possible(h)
    ensures Shows(Steps(s, hs), FollowAll(t, hs))
    decreases |hs|
  {
    if hs != [] {
      StepFollows(s, t, hs[0]);
      StepsFollow(Step(s, hs[0]), Follow(t, hs[0]), hs[1..]);
    }
  }

  /** The number a test's end reports: only a receiver test counts. */
  function GoodIn(t: Test): nat {
    if t.Receiving? then t.good else 0
  }

  /** After every run the end of a test is accepted iff one runs. It then reports 0x8000 plus
      the number of good, valid packets since a receiver test began, modulo 0x8000, and 0x8000
      after a transmitter or carrier test. */
  lemma ReportCountsGoodPackets(s: State, t: Test, hs: seq<Happening>)
    requires s.Valid() && Shows(s, t) && forall h :: h in hs ==> Possible(h)
    ensures var test := FollowAll(t, hs);
            var (u, code) := Command(Steps(s, hs), LE_TEST_END, 0, 0, 0);
            && (code == SUCCESS <==> test.Sending? || test.Carrier? || test.Receiving?)
            && (code == SUCCESS ==> u.phase == Idle && u.newEvent && u.event == 0x8000 + GoodIn(test) % 0x8000)
            && (code != SUCCESS && !test.NotReady? ==> u.newEvent && u.event == EVENT_ERROR)
  {
    StepsFollow(s, t, hs);
    CommandFollows(Steps(s, hs), FollowAll(t, hs), LE_TEST_END, 0, 0, 0);
    ReportModulo(GoodIn(FollowAll(t, hs)));
  }

  lemma ReportModulo(n: nat)
    ensures Report(n % 0x1_0000) == 0x8000 + n % 0x8000
  {
  }

  /** After every run a reset ends the test without touching packet, power or timer, and a
      receiver test on a legal channel can begin. */
  lemma ResetFreesTheRadio(s: State, t: Test, hs: seq<Happening>, freq: int)
    requires s.Valid() && Shows(s, t) && !t.NotReady? && forall h :: h in hs ==> Possible(h)
    requires freq <= PHYS_CH_MAX
    ensures var before := Steps(s, hs);
            var (u, code) := Command(before, LE_RESET, 0, 0, 0);
            && code == SUCCESS && u.phase == Idle && u.rxCount == 0 && u.event == EVENT_SUCCESS
            && u.pdu == before.pdu && u.txPower == before.txPower && u.timer == before.timer
            && var (v, next) := Command(u, LE_RECEIVER_TEST, freq, 0, 0);
               next == SUCCESS && v.phase == ReceiverTest && v.rxCount == 0 && v.pdu == ZeroPdu()
  {
    StepsFollow(s, t, hs);
    StaysReady(t, hs);
  }

  lemma {:induction false} StaysReady(t: Test, hs: seq<Happening>)
    requires !t.NotReady? && forall h :: h in hs ==> Possible(h)
    ensures !FollowAll(t, hs).NotReady?
    decreases |hs|
  {
    if hs != [] {
      StaysReady(Follow(t, hs[0]), hs[1..]);
    }
  }

  /** The settings change exactly by the accepted vendor commands for them. */
  lemma SettingsChangeIff(s: State, t: Test, cmd: int, freq: int, length: nat, payload: int)
    requires s.Valid() && Shows(s, t) && Copyable(length, payload)
    ensures var u := Command(s, cmd, freq, length, payload).0;
            var vendor := Legal(t, cmd, freq, length, payload) && cmd == LE_TRANSMITTER_TEST && payload == VENDOR_SPECIFIC;
            && u.txPower == (if vendor && length == 2 then freq else s.txPower)
            && u.timer == (if vendor && length == 3 then freq else s.timer)
  {
    PowerIsLegalIff(freq);
  }

  // ---------- transmitted packets ----------

  /** The packet of an accepted transmitter test: its type and length, and after them the
      generated sequence, or the byte that stands for four ones and four zeros, or for ones
      and zeros in turn. */
  lemma TransmittedPacket(s: State, freq: int, length: nat, payload: int, k: nat)
    requires s.Valid() && s.phase == Idle && freq <= PHYS_CH_MAX && 0 <= payload <= 2 && k < length <= PAYLOAD_MAX_SIZE
    ensures var (t, code) := Command(s, LE_TRANSMITTER_TEST, freq, length, payload);
            && code == SUCCESS && t.pdu[0] == payload && t.pdu[1] == length
            && (forall i :: 2 + length <= i < PDU_SIZE ==> t.pdu[i] == s.pdu[i])
            && (payload == 0 ==> t.pdu[2 + k] == Prbs9(k))
            && (payload == 1 ==> BitsOf(t.pdu[2 + k]) == Bits(true, true, true, true, false, false, false, false))
            && (payload == 2 ==> BitsOf(t.pdu[2 + k]) == Bits(true, false, true, false, true, false, true, false))
  {
    BuiltPayload(s.pdu, payload, length);
    assert BuildPdu(s.pdu, payload, length)[2..2 + length][k] == PatternByte(payload, k);
  }

  // ---------- the stateful code ----------

  class Dtm {
    var phase: Phase
    var rxCount: int
    const pdu: array<int>
    var event: int
    var newEvent: bool
    var txPower: int
    var timer: int

    ghost function Snapshot(): State
      reads this, pdu
    {
      State(phase, rxCount, pdu[..], event, newEvent, txPower, timer)
    }

    ghost predicate Valid()
      reads this, pdu
    {
      Snapshot().Valid()
    }

    constructor ()
      ensures Valid() && phase == Idle && fresh(pdu)
    {
      phase, rxCount, event, newEvent, txPower, timer := Idle, 0, 0, false, 0, 0;
      pdu := new int[PDU_SIZE](_ => 0);
    }

    method CheckReceived() returns (good: bool)
      requires Valid()
      ensures good == CheckPdu(pdu[..])
    {
      var kind := pdu[0] % 16;
      var length := pdu[1];
      if kind > 2 || length < 0 || length > PAYLOAD_MAX_SIZE {
        return false;
      }
      var k := 0;
      while k < length
        invariant 0 <= k <= length
        invariant forall i :: 0 <= i < k ==> pdu[2 + i] == PatternByte(kind, i)
      {
        if pdu[k + 2] != PatternByte(kind, k) {
          assert pdu[..][2..2 + length][k] != Payload(kind, length)[k];
          return false;
        }
        k := k + 1;
      }
      return true;
    }

    method ZeroFill()
      requires pdu.Length == PDU_SIZE
      modifies pdu
      ensures pdu[..] == ZeroPdu()
    {
      var i := 0;
      while i < PDU_SIZE
        invariant 0 <= i <= PDU_SIZE
        invariant forall k :: 0 <= k < i ==> pdu[k] == 0
      {
        pdu[i] := 0;
        i := i + 1;
      }
    }

    /** The reception branch of dtm_wait, with `packet` in the radio's buffer. */
    method RadioEnd(crcGood: bool, packet: seq<int>)
      requires Valid() && |packet| == PDU_SIZE
      modifies this`rxCount, pdu
      ensures Valid() && Snapshot() == Received(old(Snapshot()), crcGood, packet)
    {
      if phase == ReceiverTest {
        forall i | 0 <= i < PDU_SIZE {
          pdu[i] := packet[i];
        }
        assert pdu[..] == packet;
        var good := CheckReceived();
        if crcGood && good {
          rxCount := (rxCount + 1) % 0x1_0000;
        }
        ZeroFill();
      }
    }

    method FillPayload(kind: int, length: nat)
      requires pdu.Length == PDU_SIZE && length <= PAYLOAD_MAX_SIZE
      modifies pdu
      ensures pdu[..] == old(pdu[..2]) + Payload(kind, length) + old(pdu[2 + length..])
    {
      var k := 0;
      while k < length
        invariant 0 <= k <= length
        invariant forall i :: 0 <= i < k ==> pdu[2 + i] == PatternByte(kind, i)
        invariant forall i :: 0 <= i < PDU_SIZE && (i < 2 || 2 + k <= i) ==> pdu[i] == old(pdu[i])
      {
        pdu[2 + k] := PatternByte(kind, k);
        k := k + 1;
      }
      assert pdu[2..2 + length] == Payload(kind, length);
      assert pdu[..] == pdu[..2] + pdu[2..2 + length] + pdu[2 + length..];
    }

    method VendorSpecific(cmd: int, option: int) returns (code: int)
      requires Valid() && phase == Idle
      modifies this
      ensures Valid() && (Snapshot(), code) == Vendor(old(Snapshot()), cmd, option)
    {
      if cmd == 0 || cmd == 1 {
        phase := CarrierTest;
      } else if cmd == 2 {
        if !TxPowerOk(option) {
          return ILLEGAL_CONFIGURATION;
        }
        txPower := option;
      } else if cmd == 3 {
        if option < 0 || option > 2 {
          return ILLEGAL_CONFIGURATION;
        }
        timer := option;
      }
      return SUCCESS;
    }

    method StartTransmitter(freq: int, length: nat, payload: int) returns (code: int)
      requires Valid() && phase == Idle && Copyable(length, payload)
      modifies this, pdu
      ensures Valid() && (Snapshot(), code) == Transmit(old(Snapshot()), freq, length, payload)
    {
      var packetLength := length % 0x100;
      if packetLength > PAYLOAD_MAX_SIZE {
        event := EVENT_ERROR;
        return ILLEGAL_LENGTH;
      }
      pdu[0] := payload % 16;
      pdu[1] := packetLength;
      if payload == 0 || payload == 1 || payload == 2 {
        assert pdu[..2] == [payload % 16, length];
        assert pdu[2 + length..] == old(pdu[..])[2 + length..];
        FillPayload(payload, length);
        phase := TransmitterTest;
        return SUCCESS;
      }
      if payload == VENDOR_SPECIFIC {
        code := VendorSpecific(length, freq);
        return;
      }
      event := EVENT_ERROR;
      return ILLEGAL_CONFIGURATION;
    }

    method DtmCmd(cmd: int, freq: int, length: nat, payload: int) returns (code: int)
      requires Valid() && Copyable(length, payload)
      modifies this, pdu
      ensures Valid() && (Snapshot(), code) == Command(old(Snapshot()), cmd, freq, length, payload)
      ensures old(phase) != Uninitialized && cmd == LE_RESET ==> code == SUCCESS && phase == Idle && rxCount == 0
      ensures old(phase) != Uninitialized && old(phase) != Idle && cmd == LE_TEST_END ==>
                code == SUCCESS && phase == Idle && rxCount == 0 && event == 0x8000 + old(rxCount) % 0x8000
    {
      newEvent := true;
      event := EVENT_SUCCESS;
      if phase == Uninitialized {
        return UNINITIALIZED;
      }
      if cmd == LE_RESET {
        rxCount, phase := 0, Idle;
        return SUCCESS;
      }
      if cmd == LE_TEST_END {
        if phase == Idle {
          event := EVENT_ERROR;
          return INVALID_STATE;
        }
        event := Report(rxCount);
        rxCount, phase := 0, Idle;
        return SUCCESS;
      }
      if phase != Idle {
        event := EVENT_ERROR;
        return INVALID_STATE;
      }
      if freq > PHYS_CH_MAX {
        event := EVENT_ERROR;
        return ILLEGAL_CHANNEL;
      }
      rxCount := 0;
      if cmd == LE_RECEIVER_TEST {
        ZeroFill();
        phase := ReceiverTest;
        return SUCCESS;
      }
      if cmd == LE_TRANSMITTER_TEST {
        code := StartTransmitter(freq, length, payload);
        return;
      }
      return SUCCESS;
    }

    /** Whether the event is new, and the event. */
    method EventGet() returns (wasNew: bool, e: int)
      modifies this`newEvent
      ensures wasNew == old(newEvent) && e == event && !newEvent
    {
      wasNew := newEvent;
      newEvent := false;
      e := event;
    }
  }

  /** The stateful code through any run of commands and receptions shows the test that runs. */
  method Operate(d: Dtm, hs: seq<Happening>, ghost t: Test)
    requires d.Valid() && Shows(d.Snapshot(), t) && forall h :: h in hs ==> Possible(h)
    modifies d, d.pdu
    ensures d.Valid() && Shows(d.Snapshot(), FollowAll(t, hs))
  {
    ghost var s := d.Snapshot();
    var i := 0;
    while i < |hs|
      invariant 0 <= i <= |hs| && d.Valid()
      invariant Steps(d.Snapshot(), hs[i..]) == Steps(s, hs)
    {
      assert hs[i..][0] == hs[i] && hs[i..][1..] == hs[i + 1..];
      assert hs[i] in hs && Possible(hs[i]);
      match hs[i] {
        case Cmd(cmd, freq, length, payload) =>
          var _ := d.DtmCmd(cmd, freq, length, payload);
        case Packet(crcGood, packet) => d.RadioEnd(crcGood, packet);
      }
      i := i + 1;
    }
    assert hs[i..] == [];
    StepsFollow(s, t, hs);
  }
}
