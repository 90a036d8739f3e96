/** The database discovery client as a state machine on values: one function per
    response handler. Module Discovery holds the stateful code and proves each of its
    methods equal to one of these functions; module DiscoveryRuns proves what whole runs do.

    `sd` is always the code that the one SoftDevice request issued by a step returns. */
module DiscoveryModel {
  import opened Options
  import opened AttributeTable

  const MAX_SERVICES: nat := 6
  const SUCCESS := 0
  const ERROR_NO_MEM := 4
  const ERROR_INVALID_STATE := 8
  const ERROR_BUSY := 17

  datatype DbChar = DbChar(chr: Characteristic, cccd: int)

  /** A stored service. As in C, `chars` has a fixed size and only its first `charCount`
      entries mean anything. */
  datatype Service = Service(uuid: Uuid, range: Range, charCount: nat, chars: seq<DbChar>) {
    predicate Valid() {
      |chars| == MAX_CHARS && charCount <= MAX_CHARS
    }

    function Stored(): seq<DbChar>
      requires Valid()
    {
      chars[..charCount]
    }
  }

  datatype Kind = Complete | NotFound | Available
  datatype Event =
    | Event(kind: Kind, conn: int, db: Service)
    | ErrorEvent(conn: int, code: int)

  datatype Request = FindService(uuid: Uuid) | FindChars(range: Range) | FindDescs(range: Range)

  /** What the server answers; None is an error status. */
  datatype Reply =
    | Services(found: Option<seq<FoundService>>)
    | Chars(chars: Option<seq<Characteristic>>)
    | Descs(descs: Option<seq<Attribute>>)

  /** What the SoftDevice reports, with the connection it concerns. */
  datatype BleEvt = Response(conn: int, reply: Reply) | Disconnected(conn: int) | OtherEvt

  /** The module's static variables and the discovery structure of one connection.
      `delivered` logs the events handed to the application, `request` is the request the
      SoftDevice has accepted and not yet answered. */
  datatype State = State(
    registered: seq<Uuid>,
    services: seq<Service>,
    currChar: nat,
    currSrv: nat,
    inProgress: bool,
    count: nat,
    conn: int,
    slots: seq<Event>,
    index: nat,
    delivered: seq<Event>,
    request: Option<Request>)
  {
    predicate Valid() {
      && |services| == MAX_SERVICES
      && (forall i :: 0 <= i < MAX_SERVICES ==> services[i].Valid())
      && |slots| == MAX_SERVICES
      && |registered| <= MAX_SERVICES
      && (forall i :: 0 <= i < MAX_SERVICES ==> slots[i].Event?)
      && index <= MAX_SERVICES
      && currSrv < MAX_SERVICES
      && currChar <= MAX_CHARS
      && (inProgress ==> count == currSrv < |registered|)
    }

    function Current(): Service
      requires currSrv < |services|
    {
      services[currSrv]
    }

    function SetCurrent(s: Service): State
      requires currSrv < |services|
    {
      this.(services := services[currSrv := s])
    }
  }

  function U16(x: int): int {
    x % 0x1_0000
  }

  /** The uint8_t copy of a uint16_t count. */
  function U8(x: int): int {
    x % 0x100
  }

  // ---------- registration and start ----------

  function Register(s: State, u: Uuid): (State, int) {
    if u in s.registered then (s, SUCCESS)
    else if |s.registered| < MAX_SERVICES then (s.(registered := s.registered + [u]), SUCCESS)
    else (s, ERROR_NO_MEM)
  }

  function Start(s: State, conn: int, sd: int): (State, int)
    requires s.Valid()
  {
    if s.registered == [] then (s, ERROR_INVALID_STATE)
    else if s.inProgress then (s, ERROR_BUSY)
    else
      var u := s.registered[0];
      var s' := s.(conn := conn, index := 0, count := 0, currSrv := 0,
                   services := s.services[0 := s.services[0].(uuid := u)]);
      if sd != SUCCESS then (s', sd)
      else (s'.(inProgress := true, request := Some(FindService(u))), SUCCESS)
  }

  function OnDisconnected(s: State, conn: int): State {
    if conn == s.conn then s.(inProgress := false, request := None) else s
  }

  // ---------- events to the application ----------

  /** A SoftDevice request was refused: stop and report, outside the pending events. */
  function ErrorExit(s: State, conn: int, code: int): (r: State)
    requires s.Valid()
    ensures r.registered == s.registered && r.conn == s.conn
  {
    s.(inProgress := false, request := None,
       delivered := if s.Current().uuid in s.registered then s.delivered + [ErrorEvent(conn, code)] else s.delivered,
       slots := MarkAvailable(s.slots, conn))
  }

  function MarkAvailable(slots: seq<Event>, conn: int): seq<Event>
    requires |slots| > 0 && slots[0].Event?
  {
    slots[0 := slots[0].(kind := Available, conn := conn)]
  }

  /** Queue the event of the current service; the event that fills the queue sends them all. */
  function QueueEvent(s: State, found: bool, conn: int): (r: State)
    requires s.Valid()
    ensures r.registered == s.registered && r.conn == s.conn
  {
    if s.Current().uuid in s.registered && s.index < MAX_SERVICES then
      var s' := s.(slots := s.slots[s.index := Event(if found then Complete else NotFound, conn, s.Current())],
                   index := s.index + 1);
      if s'.index == |s.registered| then
        s'.(delivered := s.delivered + s'.slots[..|s.registered|], index := 0)
      else s'
    else s
  }

  function Issue(s: State, conn: int, req: Request, sd: int): (r: State)
    requires s.Valid()
    ensures r.registered == s.registered && r.conn == s.conn
  {
    if sd == SUCCESS then s.(request := Some(req)) else ErrorExit(s, conn, sd)
  }

  function NextService(s: State, conn: int, sd: int): (r: State)
    requires s.Valid() && s.inProgress
    ensures r.registered == s.registered && r.conn == s.conn
  {
    if s.count + 1 < |s.registered| then
      var k := s.currSrv + 1;
      var u := s.registered[k];
      var s' := s.(count := s.count + 1, currChar := 0, currSrv := k,
                   services := s.services[k := s.services[k].(uuid := u, charCount := 0)]);
      Issue(s', conn, FindService(u), sd)
    else
      s.(count := s.count + 1, inProgress := false, request := None, slots := MarkAvailable(s.slots, conn))
  }

  /** The current service is done. */
  function Finish(s: State, found: bool, conn: int, sd: int): (r: State)
    requires s.Valid() && s.inProgress
    ensures r.registered == s.registered && r.conn == s.conn
  {
    NextService(QueueEvent(s, found, conn), conn, sd)
  }

  // ---------- descriptor search ----------

  /** The handles between characteristic `i` and the next stored one or the service end. */
  function Gap(s: Service, i: nat): Range
    requires s.Valid() && i < s.charCount
  {
    Range(U16(s.chars[i].chr.value + 1),
          if i == s.charCount - 1 then s.range.end else U16(s.chars[i + 1].chr.decl - 1))
  }

  predicate HasGap(s: Service, i: nat)
    requires s.Valid() && i < s.charCount
  {
    if i == s.charCount - 1 then s.chars[i].chr.value != s.range.end
    else s.chars[i].chr.value + 1 != s.chars[i + 1].chr.decl
  }

  /** The least index from `i` on whose characteristic may have descriptors, or the count. */
  function NextGap(s: Service, i: nat): (k: nat)
    requires s.Valid() && i <= s.charCount
    ensures i <= k <= s.charCount
    ensures k < s.charCount ==> HasGap(s, k)
    ensures forall j :: i <= j < k ==> !HasGap(s, j)
    decreases s.charCount - i
  {
    if i == s.charCount || HasGap(s, i) then i else NextGap(s, i + 1)
  }

  /** Search descriptors from characteristic `currChar` on, or finish the service. */
  function DescsDiscover(s: State, conn: int, sd: int): (r: State)
    requires s.Valid() && s.inProgress && s.currChar <= s.Current().charCount
    ensures r.registered == s.registered && r.conn == s.conn
  {
    var c := s.Current();
    var k := NextGap(c, s.currChar);
    if k < c.charCount then Issue(s.(currChar := k), conn, FindDescs(Gap(c, k)), sd)
    else Finish(s.(currChar := if s.currChar + 1 == c.charCount then s.currChar else k), true, conn, sd)
  }

  /** Ask for the characteristics after the ones already stored. */
  function CharsDiscover(s: State, conn: int, sd: int): (r: State)
    requires s.Valid()
    ensures r.registered == s.registered && r.conn == s.conn
  {
    var c := s.Current();
    Issue(s, conn, FindChars(Range(
            if s.currChar != 0 then U16(c.chars[s.currChar - 1].chr.value + 1) else c.range.start,
            c.range.end)), sd)
  }

  // ---------- response handlers ----------

  function OnServices(s: State, conn: int, found: Option<seq<FoundService>>, sd: int): (r: State)
    requires s.Valid()
    requires conn == s.conn ==> s.inProgress && (found.Some? ==> found.value != [])
    ensures r.registered == s.registered && r.conn == s.conn
  {
    if conn != s.conn then s
    else if found.None? then Finish(s, false, conn, sd)
    else
      var f := found.value[0];
      CharsDiscover(s.SetCurrent(s.Current().(uuid := f.uuid, range := f.range)), conn, sd)
  }

  function Unresolved(cs: seq<Characteristic>): seq<DbChar> {
    seq(|cs|, i requires 0 <= i < |cs| => DbChar(cs[i], 0))
  }

  /** Store as many of the new characteristics as fit. */
  function Store(c: Service, cs: seq<Characteristic>): (r: Service)
    requires c.Valid()
    ensures r.Valid()
  {
    var n := U8(|cs|);
    var total := if c.charCount + n <= MAX_CHARS then c.charCount + n else MAX_CHARS;
    c.(charCount := total,
       chars := c.chars[..c.charCount] + Unresolved(cs[..total - c.charCount]) + c.chars[total..])
  }

  function OnChars(s: State, conn: int, chars: Option<seq<Characteristic>>, sd: int): (r: State)
    requires s.Valid()
    requires conn == s.conn ==> s.inProgress && (chars.Some? ==> 1 <= |chars.value| < 0x100)
    ensures r.registered == s.registered && r.conn == s.conn
  {
    if conn != s.conn then s
    else if chars.None? then DescsDiscover(s.(currChar := 0), conn, sd)
    else AfterStore(s.SetCurrent(Store(s.Current(), chars.value)), conn, sd)
  }

  /** Search on after the last stored value, or turn to descriptors when the service end
      or the storage limit is reached. */
  function AfterStore(s: State, conn: int, sd: int): (r: State)
    requires s.Valid() && s.inProgress && s.Current().charCount > 0
    ensures r.registered == s.registered && r.conn == s.conn
  {
    var c := s.Current();
    if !(c.chars[c.charCount - 1].chr.value < c.range.end) || c.charCount == MAX_CHARS then
      DescsDiscover(s.(currChar := 0), conn, sd)
    else
      CharsDiscover(s.(currChar := c.charCount), conn, sd)
  }

  function WithCccd(c: Service, i: nat, ds: seq<Attribute>): Service
    requires c.Valid() && i < MAX_CHARS
  {
    if exists d :: d in ds && d.IsCccd() then c.(chars := c.chars[i := c.chars[i].(cccd := FirstCccd(ds))]) else c
  }

  function OnDescs(s: State, conn: int, descs: Option<seq<Attribute>>, sd: int): (r: State)
    requires s.Valid()
    requires conn == s.conn ==> s.inProgress && s.currChar < s.Current().charCount
    ensures r.registered == s.registered && r.conn == s.conn
  {
    if conn != s.conn then s
    else AfterDescs(if descs.Some? then s.SetCurrent(WithCccd(s.Current(), s.currChar, descs.value)) else s, conn, sd)
  }

  /** Turn to the next characteristic, or finish the service after the last one. */
  function AfterDescs(s: State, conn: int, sd: int): (r: State)
    requires s.Valid() && s.inProgress
    requires s.currChar < s.Current().charCount
    ensures r.registered == s.registered && r.conn == s.conn
  {
    if s.currChar + 1 == s.Current().charCount then Finish(s, true, conn, sd)
    else DescsDiscover(s.(currChar := s.currChar + 1), conn, sd)
  }
}
