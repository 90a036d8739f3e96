/** The peer's attribute table, as an attribute protocol server holds it, and the
    three queries a discovery client can put to it. */
module AttributeTable {
  import opened Options

  const HANDLE_MAX := 0xFFFF
  const CLIENT_CHAR_CONFIG := 0x2902

  /** How many characteristics a stored service has room for. Any number that the byte
      which counts them can hold; the firmware sets 5. */
  type Room = n: nat | 1 <= n <= 0xFF witness 5

  const MAX_CHARS: Room

  /** A UUID as the SoftDevice represents it: a base (`kind`) and 16 bits. */
  datatype Uuid = Uuid(kind: int, value: int)
  datatype Range = Range(start: int, end: int)
  datatype Characteristic = Characteristic(uuid: Uuid, decl: int, value: int)
  datatype FoundService = FoundService(uuid: Uuid, range: Range)

  datatype Attribute =
    | ServiceDecl(handle: int, uuid: Uuid, end: int)
    | CharDecl(handle: int, uuid: Uuid, value: int)
    | Other(handle: int, attType: Uuid)
  {
    /** The attribute type, which Find Information reports. */
    function TypeOf(): Uuid {
      match this
      case ServiceDecl(_, _, _) => Uuid(1, 0x2800)
      case CharDecl(_, _, _) => Uuid(1, 0x2803)
      case Other(_, t) => t
    }

    predicate IsCccd() {
      TypeOf().value == CLIENT_CHAR_CONFIG
    }

    predicate In(r: Range) {
      r.start <= handle <= r.end
    }

    predicate DeclIn(r: Range) {
      CharDecl? && In(r)
    }
  }

  type Table = seq<Attribute>

  /** Handles ascend, and each characteristic declaration is directly followed by the
      value attribute it names. Closed under dropping a prefix. */
  ghost predicate Laid(t: Table) {
    && (forall i, j {:trigger Before(t, i, j)} :: 0 <= i < j < |t| ==> Before(t, i, j))
    && (forall i {:trigger ValueFollows(t, i)} :: 0 <= i < |t| ==> ValueFollows(t, i))
  }

  ghost predicate Before(t: Table, i: nat, j: nat)
    requires i < |t| && j < |t|
  {
    t[i].handle < t[j].handle
  }

  ghost predicate ValueFollows(t: Table, i: nat)
    requires i < |t|
  {
    t[i].CharDecl? ==> i + 1 < |t| && t[i + 1].Other? && t[i + 1].handle == t[i].value
  }

  lemma LaidTail(t: Table)
    requires Laid(t) && t != []
    ensures Laid(t[1..])
  {
    forall i | 0 <= i < |t[1..]|
      ensures ValueFollows(t[1..], i)
    {
      assert ValueFollows(t, i + 1);
    }
    forall i, j | 0 <= i < j < |t[1..]|
      ensures Before(t[1..], i, j)
    {
      assert Before(t, i + 1, j + 1);
    }
  }

  /** A table a conforming server can hold: in addition, handles are 16-bit and not the
      invalid handle, and a service's range holds the value of every characteristic
      declared in it. */
  ghost predicate WellFormed(t: Table) {
    && Laid(t)
    && (forall i {:trigger HandlesFit(t, i)} :: 0 <= i < |t| ==> HandlesFit(t, i))
    && (forall i, j {:trigger ValueInService(t, i, j)} :: 0 <= i < |t| && 0 <= j < |t| ==> ValueInService(t, i, j))
  }

  ghost predicate HandlesFit(t: Table, i: nat)
    requires i < |t|
  {
    1 <= t[i].handle <= HANDLE_MAX && (t[i].ServiceDecl? ==> t[i].handle <= t[i].end <= HANDLE_MAX)
  }

  ghost predicate ValueInService(t: Table, i: nat, j: nat)
    requires i < |t| && j < |t|
  {
    t[i].ServiceDecl? && t[j].DeclIn(Range(t[i].handle, t[i].end)) ==> t[j].value <= t[i].end
  }

  lemma HandlesPositive(t: Table)
    requires WellFormed(t)
    ensures forall a :: a in t ==> a.handle >= 1
  {
    forall i | 0 <= i < |t|
      ensures t[i].handle >= 1
    {
      assert HandlesFit(t, i);
    }
  }

  /** The primary services with UUID `u`, in handle order. */
  function ServicesOf(t: Table, u: Uuid): seq<FoundService> {
    if t == [] then []
    else (if t[0].ServiceDecl? && t[0].uuid == u then [FoundService(u, Range(t[0].handle, t[0].end))] else [])
         + ServicesOf(t[1..], u)
  }

  /** The characteristics declared inside `r`, in handle order. */
  function CharsIn(t: Table, r: Range): seq<Characteristic> {
    if t == [] then []
    else (if t[0].DeclIn(r) then [Characteristic(t[0].uuid, t[0].handle, t[0].value)] else [])
         + CharsIn(t[1..], r)
  }

  /** Every attribute inside `r`, in handle order. */
  function AttrsIn(t: Table, r: Range): seq<Attribute> {
    if t == [] then []
    else (if t[0].In(r) then [t[0]] else []) + AttrsIn(t[1..], r)
  }

  /** The handle of the first client characteristic configuration descriptor, or the
      invalid handle. */
  function FirstCccd(ds: seq<Attribute>): int {
    if ds == [] then 0
    else if ds[0].IsCccd() then ds[0].handle
    else FirstCccd(ds[1..])
  }

  lemma {:induction false} ServicesFacts(t: Table, u: Uuid)
    ensures forall f :: f in ServicesOf(t, u) ==>
              f.uuid == u && exists i :: 0 <= i < |t| && t[i] == ServiceDecl(f.range.start, u, f.range.end)
  {
    if t != [] {
      ServicesFacts(t[1..], u);
      forall f | f in ServicesOf(t, u)
        ensures f.uuid == u && exists i :: 0 <= i < |t| && t[i] == ServiceDecl(f.range.start, u, f.range.end)
      {
        if f in ServicesOf(t[1..], u) {
          var i :| 0 <= i < |t[1..]| && t[1..][i] == ServiceDecl(f.range.start, u, f.range.end);
          assert t[i + 1] == t[1..][i];
        } else {
          assert t[0] == ServiceDecl(f.range.start, u, f.range.end);
        }
      }
    }
  }

  /** Characteristics come out in range, with their value after their declaration and
      before the next declaration. */
  lemma {:induction false} CharsFacts(t: Table, r: Range)
    requires Laid(t)
    ensures forall c :: c in CharsIn(t, r) ==>
              && r.start <= c.decl <= r.end && c.decl < c.value
              && exists i :: 0 <= i < |t| && t[i] == CharDecl(c.decl, c.uuid, c.value)
    ensures forall i, j :: 0 <= i < j < |CharsIn(t, r)| ==> CharsIn(t, r)[i].value < CharsIn(t, r)[j].decl
  {
    if t != [] {
      var rest := CharsIn(t[1..], r);
      LaidTail(t);
      CharsFacts(t[1..], r);
      assert ValueFollows(t, 0);
      forall c | c in CharsIn(t, r)
        ensures r.start <= c.decl <= r.end && c.decl < c.value
        ensures exists i :: 0 <= i < |t| && t[i] == CharDecl(c.decl, c.uuid, c.value)
      {
        if c in rest {
          var i :| 0 <= i < |t[1..]| && t[1..][i] == CharDecl(c.decl, c.uuid, c.value);
          assert t[i + 1] == t[1..][i];
        } else {
          assert t[0] == CharDecl(c.decl, c.uuid, c.value);
          assert Before(t, 0, 1);
        }
      }
      if t[0].DeclIn(r) {
        forall j | 0 <= j < |rest|
          ensures t[0].value < rest[j].decl
        {
          assert rest[j] in rest;
          var i :| 0 <= i < |t[1..]| && t[1..][i] == CharDecl(rest[j].decl, rest[j].uuid, rest[j].value);
          assert t[i + 1] == t[1..][i];
          assert i > 0 ==> Before(t, 1, i + 1);
        }
      }
    }
  }

  /** Two ranges that agree on the declarations of a table select the same characteristics. */
  lemma {:induction false} SameDecls(t: Table, r: Range, s: Range)
    requires forall i :: 0 <= i < |t| ==> t[i].DeclIn(r) == t[i].DeclIn(s)
    ensures CharsIn(t, r) == CharsIn(t, s)
  {
    if t != [] {
      assert t[0].DeclIn(r) == t[0].DeclIn(s);
      SameDecls(t[1..], r, s);
    }
  }

  /** Asking again from just after the value of the k-th characteristic yields exactly the
      characteristics that were still missing. */
  lemma {:induction false} CharsAfter(t: Table, r: Range, k: nat)
    requires Laid(t)
    requires 0 < k <= |CharsIn(t, r)|
    ensures CharsIn(t, Range(CharsIn(t, r)[k - 1].value + 1, r.end)) == CharsIn(t, r)[k..]
  {
    var cs, rest := CharsIn(t, r), CharsIn(t[1..], r);
    var s := Range(cs[k - 1].value + 1, r.end);
    HeadBeforeValue(t, r, k);
    LaidTail(t);
    assert CharsIn(t, s) == CharsIn(t[1..], s);
    if t[0].DeclIn(r) {
      assert cs == [Characteristic(t[0].uuid, t[0].handle, t[0].value)] + rest;
      if k == 1 {
        SameDeclsAfter(t, r);
      } else {
        CharsAfter(t[1..], r, k - 1);
      }
    } else {
      assert cs == rest;
      CharsAfter(t[1..], r, k);
    }
  }

  lemma HeadBeforeValue(t: Table, r: Range, k: nat)
    requires Laid(t)
    requires 0 < k <= |CharsIn(t, r)|
    ensures t[0].handle < CharsIn(t, r)[k - 1].value
  {
    CharsFacts(t, r);
    var c := CharsIn(t, r)[k - 1];
    assert c in CharsIn(t, r);
    var m :| 0 <= m < |t| && t[m] == CharDecl(c.decl, c.uuid, c.value);
    assert m > 0 ==> Before(t, 0, m);
  }

  lemma SameDeclsAfter(t: Table, r: Range)
    requires Laid(t)
    requires t != [] && t[0].DeclIn(r)
    ensures CharsIn(t[1..], Range(t[0].value + 1, r.end)) == CharsIn(t[1..], r)
  {
    var s := Range(t[0].value + 1, r.end);
    assert ValueFollows(t, 0);
    forall i | 0 <= i < |t[1..]|
      ensures t[1..][i].DeclIn(r) == t[1..][i].DeclIn(s)
    {
      assert t[1..][i] == t[i + 1];
      assert t[1].handle == t[0].value && t[1].Other?;
      assert Before(t, 0, 1);
      assert i > 0 ==> Before(t, 1, i + 1);
    }
    SameDecls(t[1..], r, s);
  }

  lemma {:induction false} AttrsFacts(t: Table, r: Range)
    ensures forall a :: a in AttrsIn(t, r) ==> a in t && a.In(r)
    ensures r.start > r.end ==> AttrsIn(t, r) == []
  {
    if t != [] {
      AttrsFacts(t[1..], r);
    }
  }

  /** A response that is a prefix of the matching attributes shows either their first
      configuration descriptor or none. */
  lemma {:induction false} CccdOfPrefix(ds: seq<Attribute>, all: seq<Attribute>)
    requires ds <= all
    requires forall a :: a in all ==> a.handle >= 1
    ensures FirstCccd(ds) == 0 || FirstCccd(ds) == FirstCccd(all)
  {
    if ds != [] {
      assert ds[1..] <= all[1..];
      CccdOfPrefix(ds[1..], all[1..]);
    }
  }

  /** What FirstCccd means. */
  lemma {:induction false} FirstCccdIsFirst(ds: seq<Attribute>)
    requires forall a :: a in ds ==> a.handle >= 1
    ensures FirstCccd(ds) == 0 <==> (forall a :: a in ds ==> !a.IsCccd())
    ensures FirstCccd(ds) != 0 ==>
              exists i :: 0 <= i < |ds| && ds[i].IsCccd() && ds[i].handle == FirstCccd(ds)
                          && forall j :: 0 <= j < i ==> !ds[j].IsCccd()
  {
    if ds != [] && !ds[0].IsCccd() {
      FirstCccdIsFirst(ds[1..]);
      if FirstCccd(ds) != 0 {
        var i :| 0 <= i < |ds[1..]| && ds[1..][i].IsCccd() && ds[1..][i].handle == FirstCccd(ds)
                 && forall j :: 0 <= j < i ==> !ds[1..][j].IsCccd();
        assert forall j :: 0 < j < i + 1 ==> ds[j] == ds[1..][j - 1];
        assert ds[i + 1] == ds[1..][i];
      }
    }
  }
}
