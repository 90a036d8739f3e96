/** Advertising data: a concatenation of structures, each a length byte, a type byte and
    the data (Bluetooth Core Specification, volume 3, part C, section 11). */
module AdStructures {
  import opened Options

  const MANUFACTURER_SPECIFIC_DATA: int := 0xFF
  const ADV_MAX_SIZE: nat := 31

  /** One structure. */
  datatype Ad = Ad(kind: int, data: seq<int>) {
    predicate Fits() {
      |data| <= 0xFE
    }
  }

  function EncodeOne(a: Ad): seq<int> {
    [|a.data| + 1, a.kind] + a.data
  }

  function Encode(ads: seq<Ad>): seq<int> {
    if ads == [] then [] else EncodeOne(ads[0]) + Encode(ads[1..])
  }

  lemma EncodeSingle(a: Ad)
    ensures Encode([a]) == EncodeOne(a)
  {
    assert [a][1..] == [];
    assert EncodeOne(a) + [] == EncodeOne(a);
  }

  /** The data of the first structure of the type asked for. */
  function First(ads: seq<Ad>, kind: int): Option<seq<int>> {
    if ads == [] then None
    else if ads[0].kind == kind then Some(ads[0].data)
    else First(ads[1..], kind)
  }

  /** `bytes` from index `i` on is a concatenation of structures with non-zero lengths. */
  predicate WellFormed(bytes: seq<int>, i: nat)
    requires i <= |bytes|
    decreases |bytes| - i
  {
    i < |bytes| ==>
      && 1 <= bytes[i] <= 0xFF
      && i + bytes[i] + 1 <= |bytes|
      && WellFormed(bytes, i + bytes[i] + 1)
  }

  /** The structures that well-formed bytes consist of. */
  function Decode(bytes: seq<int>, i: nat): seq<Ad>
    requires i <= |bytes| && WellFormed(bytes, i)
    decreases |bytes| - i
  {
    if i == |bytes| then []
    else [Ad(bytes[i + 1], bytes[i + 2..i + bytes[i] + 1])] + Decode(bytes, i + bytes[i] + 1)
  }

  /** Well-formed bytes are exactly the encodings, and decoding inverts encoding. */
  lemma {:induction false} EncodeDecode(bytes: seq<int>, i: nat)
    requires i <= |bytes| && WellFormed(bytes, i)
    ensures Encode(Decode(bytes, i)) == bytes[i..]
    ensures forall a :: a in Decode(bytes, i) ==> a.Fits()
    decreases |bytes| - i
  {
    if i < |bytes| {
      var next := i + bytes[i] + 1;
      EncodeDecode(bytes, next);
      var a := Ad(bytes[i + 1], bytes[i + 2..next]);
      assert EncodeOne(a) == bytes[i..next];
      assert bytes[i..next] + bytes[next..] == bytes[i..];
      assert Decode(bytes, i)[1..] == Decode(bytes, next);
    } else {
      assert bytes[i..] == [];
    }
  }

  lemma {:induction false} DecodeEncode(bytes: seq<int>, i: nat, ads: seq<Ad>)
    requires forall j :: 0 <= j < |ads| ==> ads[j].Fits()
    requires i <= |bytes| && bytes[i..] == Encode(ads)
    ensures WellFormed(bytes, i) && Decode(bytes, i) == ads
    decreases |ads|
  {
    if ads != [] {
      var a, rest := ads[0], ads[1..];
      assert ads == [a] + rest;
      Layout(bytes, i, a, Encode(rest));
      DecodeEncode(bytes, i + 2 + |a.data|, rest);
      DecodeStep(bytes, i, a);
    } else {
      assert i == |bytes|;
    }
  }

  lemma DecodeStep(bytes: seq<int>, i: nat, a: Ad)
    requires a.Fits() && i + 2 + |a.data| <= |bytes|
    requires bytes[i] == |a.data| + 1 && bytes[i + 1] == a.kind && bytes[i + 2..i + 2 + |a.data|] == a.data
    requires WellFormed(bytes, i + 2 + |a.data|)
    ensures WellFormed(bytes, i) && Decode(bytes, i) == [a] + Decode(bytes, i + 2 + |a.data|)
  {
  }

  /** Where the parts of an encoded structure are. */
  lemma Layout(bytes: seq<int>, i: nat, a: Ad, rest: seq<int>)
    requires i <= |bytes| && bytes[i..] == EncodeOne(a) + rest
    ensures i + 2 + |a.data| <= |bytes|
    ensures bytes[i] == |a.data| + 1 && bytes[i + 1] == a.kind
    ensures bytes[i + 2..i + 2 + |a.data|] == a.data
    ensures bytes[i + 2 + |a.data|..] == rest
  {
    var tail := bytes[i..];
    assert |tail| == 2 + |a.data| + |rest|;
    assert bytes[i] == tail[0] && bytes[i + 1] == tail[1];
    assert bytes[i + 2..i + 2 + |a.data|] == tail[2..2 + |a.data|];
    assert bytes[i + 2 + |a.data|..] == tail[2 + |a.data|..];
  }

  // ---------- the parser ----------

  /** What a search for `kind` reads lies inside the data. Lengths of zero and a last
      structure of another type that is cut short pass. */
  predicate Readable(kind: int, bytes: seq<int>, i: nat)
    decreases |bytes| - i
  {
    i < |bytes| ==>
      && bytes[i] >= 0 && i + 1 < |bytes|
      && if bytes[i + 1] == kind then bytes[i] >= 1 && i + bytes[i] + 1 <= |bytes|
         else Readable(kind, bytes, i + bytes[i] + 1)
  }

  function Parse(kind: int, bytes: seq<int>, i: nat): Option<seq<int>>
    requires Readable(kind, bytes, i)
    decreases |bytes| - i
  {
    if i >= |bytes| then None
    else if bytes[i + 1] == kind then Some(bytes[i + 2..i + bytes[i] + 1])
    else Parse(kind, bytes, i + bytes[i] + 1)
  }

  /** On well-formed data the parser finds the data of the first structure of the type asked
      for, and nothing iff there is none. */
  lemma {:induction false} ParseIsFirst(kind: int, bytes: seq<int>, i: nat)
    requires i <= |bytes| && WellFormed(bytes, i)
    ensures Readable(kind, bytes, i) && Parse(kind, bytes, i) == First(Decode(bytes, i), kind)
    decreases |bytes| - i
  {
    if i < |bytes| {
      var next := i + bytes[i] + 1;
      ParseIsFirst(kind, bytes, next);
      assert Decode(bytes, i)[1..] == Decode(bytes, next);
    }
  }

  /** adv_report_parse, which scan_report_parse repeats word for word. */
  method ReportParse(kind: int, bytes: array<int>) returns (data: Option<seq<int>>)
    requires Readable(kind, bytes[..], 0)
    ensures data == Parse(kind, bytes[..], 0)
    ensures WellFormed(bytes[..], 0) ==> data == First(Decode(bytes[..], 0), kind)
  {
    if WellFormed(bytes[..], 0) {
      ParseIsFirst(kind, bytes[..], 0);
    }
    var index := 0;
    while index < bytes.Length
      invariant 0 <= index && Readable(kind, bytes[..], index)
      invariant Parse(kind, bytes[..], 0) == Parse(kind, bytes[..], index)
    {
      var fieldLength := bytes[index];
      var fieldType := bytes[index + 1];
      if fieldType == kind {
        return Some(bytes[index + 2..index + 2 + (fieldLength - 1)]);
      }
      index := index + fieldLength + 1;
    }
    return None;
  }

  /** Parsing what was encoded. */
  lemma ParseEncoded(ads: seq<Ad>, kind: int)
    requires forall i :: 0 <= i < |ads| ==> ads[i].Fits()
    ensures WellFormed(Encode(ads), 0) && Readable(kind, Encode(ads), 0)
    ensures Parse(kind, Encode(ads), 0) == First(ads, kind)
  {
    assert Encode(ads)[0..] == Encode(ads);
    DecodeEncode(Encode(ads), 0, ads);
    ParseIsFirst(kind, Encode(ads), 0);
  }
}
