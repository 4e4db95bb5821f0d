/**
 * ECHONET Lite frames (ECHONET Lite Specification, Part II, section 3.2): the parser, the request and response
 * builders, and looking a property up.
 */
module Protocol {
  import opened Bytes
  import opened Results

  const EHD1: Byte := 0x10
  const EHD2: Byte := 0x81
  const ESV_SET_I: Byte := 0x60
  const ESV_SET_C: Byte := 0x61
  const ESV_GET: Byte := 0x62
  const ESV_GET_SNA: Byte := 0x52
  const ESV_GET_RES: Byte := 0x72
  const ESV_SET_RES: Byte := 0x71
  const ESV_INFC_RES: Byte := 0x7A
  const MIN_RESPONSE_LEN := 12

  /** Group code, class code and instance code of an ECHONET object. */
  datatype Eoj = Eoj(group: Byte, class_: Byte, instance: Byte) {
    function Bytes(): seq<Byte> {
      [group, class_, instance]
    }
  }

  const CONTROLLER := Eoj(0x05, 0xFF, 0x01)

  /** One property of a frame: code, declared length and data. */
  datatype Property = Property(epc: Byte, pdc: Byte, edt: seq<Byte>)

  datatype Frame = Frame(tid: Tid, esv: Byte, props: seq<Property>)

  datatype InfFrame = InfFrame(tid: Tid, seoj: Eoj, deoj: Eoj, esv: Byte, props: seq<Property>)

  datatype FrameError = TooShort(length: nat) | InvalidHeader(first: Byte, second: Byte)

  // ----- The printed form and what it means to read it back -----

  predicate WellFormed(props: seq<Property>) {
    forall i :: 0 <= i < |props| ==> props[i].pdc == |props[i].edt|
  }

  function Encode(props: seq<Property>): seq<Byte> {
    if |props| == 0 then [] else [props[0].epc, props[0].pdc] + props[0].edt + Encode(props[1..])
  }

  /** The bytes start with a complete property. */
  predicate HoldsProperty(data: seq<Byte>) {
    |data| >= 2 && |data| >= 2 + data[1] as int
  }

  /**
   * props is the longest well-formed reading of the front of data in at most n properties:
   * printing it gives back exactly the bytes read, and nothing more could have been read.
   */
  predicate ReadsAs(data: seq<Byte>, n: nat, props: seq<Property>) {
    && WellFormed(props)
    && |props| <= n
    && Encode(props) <= data
    && (|props| == n || !HoldsProperty(data[|Encode(props)|..]))
  }

  function Properties(data: seq<Byte>, n: nat): seq<Property> {
    if n == 0 || !HoldsProperty(data) then []
    else [Property(data[0], data[1], data[2..2 + data[1] as int])] + Properties(data[2 + data[1] as int..], n - 1)
  }

  function FrameOf(data: seq<Byte>): Result<Frame, FrameError> {
    if |data| < MIN_RESPONSE_LEN then Err(TooShort(|data|))
    else if data[0] != EHD1 || data[1] != EHD2 then Err(InvalidHeader(data[0], data[1]))
    else Ok(Frame(TidOf(data), data[10], Properties(data[12..], data[11])))
  }

  function TidOf(data: seq<Byte>): Tid
    requires |data| >= 4
  {
    data[2] as int * 256 + data[3] as int
  }

  /** Where the parser finds what, and when it refuses. */
  lemma FrameOnTheWire(data: seq<Byte>)
    ensures FrameOf(data).Ok? <==> |data| >= 12 && data[0] == 0x10 && data[1] == 0x81
    ensures |data| < 12 ==> FrameOf(data) == Err(TooShort(|data|))
    ensures |data| >= 12 && FrameOf(data).Err? ==> FrameOf(data) == Err(InvalidHeader(data[0], data[1]))
    ensures FrameOf(data).Ok? ==>
              var f := FrameOf(data).value;
              f.tid == data[2] as int * 256 + data[3] as int && f.esv == data[10] && |f.props| <= data[11] as int
  {
    if |data| >= 12 {
      PropertiesReadsAs(data[12..], data[11]);
    }
  }

  /** An air conditioner answers that it is on (0x80 = 0x30) and set to 20 degrees (0xB3 = 20). */
  lemma AnswerOnTheWire()
    ensures FrameOf([0x10, 0x81, 1, 2, 1, 0x30, 1, 5, 0xFF, 1, 0x72, 2, 0x80, 1, 0x30, 0xB3, 1, 20]) ==
            Ok(Frame(258, ESV_GET_RES, [Property(0x80, 1, [0x30]), Property(0xB3, 1, [20])]))
  {
    var body: seq<Byte> := [0x80, 1, 0x30, 0xB3, 1, 20];
    var data: seq<Byte> := [0x10, 0x81, 1, 2, 1, 0x30, 1, 5, 0xFF, 1, 0x72, 2] + body;
    assert data == [0x10, 0x81, 1, 2, 1, 0x30, 1, 5, 0xFF, 1, 0x72, 2, 0x80, 1, 0x30, 0xB3, 1, 20];
    assert data[12..] == body;
    PropertiesFirst(body, 2, 3);
    assert body[3..] == [0xB3, 1, 20];
    PropertiesFirst(body[3..], 1, 3);
    assert body[2..3] == [0x30] && body[3..][2..3] == [20];
    assert Properties(body, 2) == [Property(0x80, 1, [0x30])] + ([Property(0xB3, 1, [20])] + []);
    assert Properties(body, 2) == [Property(0x80, 1, [0x30]), Property(0xB3, 1, [20])];
    assert data[11] == 2 && data[10] == 0x72 && TidOf(data) == 258;
  }

  // ----- The parser -----

  method ParseFrame(data: seq<Byte>) returns (r: Result<Frame, FrameError>)
    ensures r == FrameOf(data)
  {
    if |data| < MIN_RESPONSE_LEN {
      return Err(TooShort(|data|));
    }
    if data[0] != EHD1 || data[1] != EHD2 {
      return Err(InvalidHeader(data[0], data[1]));
    }
    var props := ReadProperties(data, data[11]);
    return Ok(Frame(data[2] as int * 256 + data[3] as int, data[10], props));
  }

  lemma PropertiesFirst(data: seq<Byte>, n: nat, k: nat)
    requires n > 0 && HoldsProperty(data) && k == 2 + data[1] as int
    ensures Properties(data, n) == [Property(data[0], data[1], data[2..k])] + Properties(data[k..], n - 1)
  {
  }

  lemma EncodeAppend(props: seq<Property>, p: Property)
    ensures Encode(props + [p]) == Encode(props) + [p.epc, p.pdc] + p.edt
  {
    EncodeConcat(props, [p]);
    assert [p][1..] == [];
  }

  /** The parser's loop over the property list, which starts at byte 12: it stops where no whole property is left. */
  method ReadProperties(data: seq<Byte>, opc: Byte) returns (props: seq<Property>)
    requires |data| >= MIN_RESPONSE_LEN
    ensures props == Properties(data[12..], opc)
  {
    var pos, i := 12, 0;
    props := [];
    while i < opc && pos + 2 <= |data|
      invariant 0 <= i <= opc && 12 <= pos <= |data|
      invariant WellFormed(props) && |props| == i && Encode(props) == data[12..pos]
    {
      ghost var start := pos;
      var epc, pdc := data[pos], data[pos + 1];
      pos := pos + 2;
      if pos + pdc > |data| {
        StopsAt(data, start, opc, props);
        return;
      }
      var edt := data[pos..pos + pdc];
      pos := pos + pdc;
      EncodeAppend(props, Property(epc, pdc, edt));
      assert data[12..pos] == data[12..start] + [epc, pdc] + edt;
      props := props + [Property(epc, pdc, edt)];
      i := i + 1;
    }
    StopsAt(data, pos, opc, props);
  }

  lemma StopsAt(data: seq<Byte>, pos: nat, opc: nat, props: seq<Property>)
    requires 12 <= pos <= |data| && WellFormed(props) && |props| <= opc && Encode(props) == data[12..pos]
    requires |props| == opc || pos + 2 > |data| || pos + 2 + data[pos + 1] as int > |data|
    ensures props == Properties(data[12..], opc)
  {
    assert data[12..][|Encode(props)|..] == data[pos..];
    ReadsAsUnique(data[12..], opc, props);
  }

  method ParseInfFrame(data: seq<Byte>) returns (r: Result<InfFrame, FrameError>)
    ensures r == InfFrameOf(data)
  {
    var f := ParseFrame(data);
    match f
    case Err(e) =>
      return Err(e);
    case Ok(frame) =>
      return Ok(InfFrame(frame.tid, Eoj(data[4], data[5], data[6]), Eoj(data[7], data[8], data[9]), frame.esv,
          frame.props));
  }

  function InfFrameOf(data: seq<Byte>): Result<InfFrame, FrameError> {
    match FrameOf(data)
    case Err(e) => Err(e)
    case Ok(frame) =>
      Ok(InfFrame(frame.tid, Eoj(data[4], data[5], data[6]), Eoj(data[7], data[8], data[9]), frame.esv, frame.props))
  }

  // ----- The parser is the maximal-prefix inverse of the printer -----

  lemma {:induction false} PropertiesReadsAs(data: seq<Byte>, n: nat)
    ensures ReadsAs(data, n, Properties(data, n))
  {
    var ps := Properties(data, n);
    if n == 0 || !HoldsProperty(data) {
      assert data[0..] == data;
    } else {
      var k := 2 + data[1] as int;
      var rest := data[k..];
      PropertiesReadsAs(rest, n - 1);
      var tail := Properties(rest, n - 1);
      assert ps[1..] == tail;
      assert data == [data[0], data[1]] + data[2..k] + rest;
      assert Encode(ps) == [data[0], data[1]] + data[2..k] + Encode(tail);
      assert data[|Encode(ps)|..] == rest[|Encode(tail)|..];
    }
  }

  lemma EncodeFirst(props: seq<Property>)
    requires |props| > 0
    ensures Encode(props) == [props[0].epc, props[0].pdc] + props[0].edt + Encode(props[1..])
  {
  }

  /** The first property of a reading stands at the front of the bytes. */
  lemma ReadsAsFirst(data: seq<Byte>, props: seq<Property>, k: nat)
    requires |props| > 0 && WellFormed(props) && Encode(props) <= data && k == 2 + props[0].pdc as int
    ensures k <= |data| && data[..k] == [props[0].epc, props[0].pdc] + props[0].edt
    ensures data[0] == props[0].epc && data[1] == props[0].pdc && data[2..k] == props[0].edt
    ensures Encode(props[1..]) <= data[k..]
    ensures data[|Encode(props)|..] == data[k..][|Encode(props[1..])|..]
  {
    EncodeFirst(props);
    var e := [props[0].epc, props[0].pdc] + props[0].edt;
    assert e == Encode(props)[..k] == data[..k];
    assert data[0] == e[0] && data[1] == e[1] && data[2..k] == e[2..];
    assert Encode(props[1..]) == Encode(props)[k..];
  }

  /** There is only one such reading, so ReadsAs characterises the parser. */
  lemma {:induction false} ReadsAsUnique(data: seq<Byte>, n: nat, props: seq<Property>)
    requires ReadsAs(data, n, props)
    ensures props == Properties(data, n)
  {
    if |props| == 0 {
      assert data[0..] == data;
    } else {
      var k := 2 + props[0].pdc as int;
      ReadsAsFirst(data, props, k);
      ReadsAsUnique(data[k..], n - 1, props[1..]);
      PropertiesFirst(data, n, k);
      assert props == [props[0]] + props[1..];
    }
  }

  /** Parser soundness and completeness in one statement, for every input with a valid header. */
  lemma ParserIsMaximalPrefixInverse(data: seq<Byte>, props: seq<Property>)
    requires FrameOf(data).Ok?
    ensures FrameOf(data).value.props == props <==> ReadsAs(data[12..], data[11], props)
  {
    PropertiesReadsAs(data[12..], data[11]);
    if ReadsAs(data[12..], data[11], props) {
      ReadsAsUnique(data[12..], data[11], props);
    }
  }

  lemma SamePrefix(p: Property, a: seq<Property>, b: seq<Property>)
    requires a <= b
    ensures [p] + a <= [p] + b
  {
  }

  lemma {:induction false} TruncatedProperties(data: seq<Byte>, n: nat, m: nat)
    requires m <= |data|
    ensures Properties(data[..m], n) <= Properties(data, n)
    decreases n
  {
    var cut := data[..m];
    if n > 0 && HoldsProperty(cut) {
      var k := 2 + data[1] as int;
      assert cut[2..k] == data[2..k] && cut[k..] == data[k..][..m - k];
      TruncatedProperties(data[k..], n - 1, m - k);
      PropertiesFirst(data, n, k);
      PropertiesFirst(cut, n, k);
      SamePrefix(Property(data[0], data[1], data[2..k]), Properties(cut[k..], n - 1), Properties(data[k..], n - 1));
    }
  }

  /** Cutting a datagram short only drops properties from the end. */
  lemma TruncationGivesPrefix(data: seq<Byte>, m: nat)
    requires MIN_RESPONSE_LEN <= m <= |data| && FrameOf(data).Ok?
    ensures FrameOf(data[..m]).Ok?
    ensures FrameOf(data[..m]).value.props <= FrameOf(data).value.props
    ensures FrameOf(data[..m]).value.tid == FrameOf(data).value.tid
    ensures FrameOf(data[..m]).value.esv == FrameOf(data).value.esv
  {
    assert data[..m][12..] == data[12..][..m - 12];
    TruncatedProperties(data[12..], data[11], m - 12);
  }

  // ----- Builders -----

  function Header(tid: Tid, deoj: Eoj, esv: Byte, opc: nat): (h: seq<Byte>)
    ensures |h| == 12
  {
    [EHD1, EHD2, tid / 256, tid % 256] + CONTROLLER.Bytes() + deoj.Bytes() + [esv, opc % 256]
  }

  /** What a Get asks for, as the parser sees it: every EPC with no data. */
  function Queries(epcs: seq<Byte>): (qs: seq<Property>)
    ensures |qs| == |epcs| && WellFormed(qs)
    ensures forall i :: 0 <= i < |epcs| ==> qs[i] == Property(epcs[i], 0, [])
  {
    seq(|epcs|, i requires 0 <= i < |epcs| => Property(epcs[i], 0, []))
  }

  method GetRequest(tid: Tid, eoj: Eoj, epcs: seq<Byte>) returns (b: seq<Byte>)
    ensures b == Header(tid, eoj, ESV_GET, |epcs|) + Encode(Queries(epcs))
    ensures b[..12] == [0x10, 0x81, tid / 256, tid % 256, 0x05, 0xFF, 0x01, eoj.group, eoj.class_, eoj.instance, 0x62,
                        |epcs| % 256]
    ensures |b| == 12 + 2 * |epcs| && forall i :: 0 <= i < |epcs| ==> b[12 + 2 * i] == epcs[i] && b[13 + 2 * i] == 0
  {
    b := [EHD1, EHD2];
    b := b + [tid / 256, tid % 256];
    b := b + CONTROLLER.Bytes();
    b := b + [eoj.group, eoj.class_, eoj.instance];
    b := b + [ESV_GET];
    b := b + [|epcs| % 256];
    ghost var h := b;
    for i := 0 to |epcs|
      invariant b + Encode(Queries(epcs)[i..]) == h + Encode(Queries(epcs))
    {
      assert Queries(epcs)[i..][1..] == Queries(epcs)[i + 1..];
      b := b + [epcs[i], 0];
    }
    assert h == Header(tid, eoj, ESV_GET, |epcs|) && b == h + Encode(Queries(epcs));
    QueriesOnTheWire(epcs);
  }

  lemma {:induction false} QueriesOnTheWire(epcs: seq<Byte>)
    ensures var b := Encode(Queries(epcs));
            |b| == 2 * |epcs| && forall i :: 0 <= i < |epcs| ==> b[2 * i] == epcs[i] && b[2 * i + 1] == 0
  {
    if |epcs| > 0 {
      var rest := epcs[1..];
      QueriesOnTheWire(rest);
      assert Queries(epcs)[1..] == Queries(rest);
      var b, tail := Encode(Queries(epcs)), Encode(Queries(rest));
      assert b == [epcs[0], 0] + tail;
      forall i | 0 <= i < |epcs| ensures b[2 * i] == epcs[i] && b[2 * i + 1] == 0 {
        assert i > 0 ==> b[2 * i] == tail[2 * (i - 1)] && b[2 * i + 1] == tail[2 * (i - 1) + 1];
      }
    }
  }

  /** SetI and SetC requests: a single property whose length byte is the low byte of the data length. */
  method SetRequestWith(esv: Byte, tid: Tid, eoj: Eoj, epc: Byte, edt: seq<Byte>) returns (b: seq<Byte>)
    ensures b == Header(tid, eoj, esv, 1) + [epc, |edt| % 256] + edt
  {
    var pdc := |edt| % 256;
    b := [EHD1, EHD2];
    b := b + [tid / 256, tid % 256];
    b := b + CONTROLLER.Bytes();
    b := b + [eoj.group, eoj.class_, eoj.instance];
    b := b + [esv];
    b := b + [1];
    b := b + [epc, pdc];
    b := b + edt;
  }

  method SetIRequest(tid: Tid, eoj: Eoj, epc: Byte, edt: seq<Byte>) returns (b: seq<Byte>)
    ensures b == Header(tid, eoj, ESV_SET_I, 1) + [epc, |edt| % 256] + edt
    ensures b[..14] == [0x10, 0x81, tid / 256, tid % 256, 0x05, 0xFF, 0x01, eoj.group, eoj.class_, eoj.instance, 0x60,
                        1, epc, |edt| % 256]
    ensures b[14..] == edt
  {
    b := SetRequestWith(ESV_SET_I, tid, eoj, epc, edt);
  }

  method SetRequest(tid: Tid, eoj: Eoj, epc: Byte, edt: seq<Byte>) returns (b: seq<Byte>)
    ensures b == Header(tid, eoj, ESV_SET_C, 1) + [epc, |edt| % 256] + edt
    ensures b[..14] == [0x10, 0x81, tid / 256, tid % 256, 0x05, 0xFF, 0x01, eoj.group, eoj.class_, eoj.instance, 0x61,
                        1, epc, |edt| % 256]
    ensures b[14..] == edt
  {
    b := SetRequestWith(ESV_SET_C, tid, eoj, epc, edt);
  }

  /** An answer that accepts a SetC request. */
  predicate IsSetRes(data: seq<Byte>) {
    FrameOf(data).Ok? && FrameOf(data).value.esv == ESV_SET_RES
  }

  method ParseSetRes(data: seq<Byte>) returns (accepted: bool)
    ensures accepted == IsSetRes(data)
    ensures accepted <==> |data| >= 12 && data[0] == 0x10 && data[1] == 0x81 && data[10] == 0x71
  {
    var frame := ParseFrame(data);
    accepted := frame.Ok? && frame.value.esv == ESV_SET_RES;
  }

  method BuildInfcRes(inf: InfFrame) returns (b: seq<Byte>)
    ensures b == Header(inf.tid, inf.seoj, ESV_INFC_RES, |inf.props|) + Encode(inf.props)
    ensures b[..12] == [0x10, 0x81, inf.tid / 256, inf.tid % 256, 0x05, 0xFF, 0x01, inf.seoj.group, inf.seoj.class_,
                        inf.seoj.instance, 0x7A, |inf.props| % 256]
  {
    b := [EHD1, EHD2];
    b := b + [inf.tid / 256, inf.tid % 256];
    b := b + CONTROLLER.Bytes();
    b := b + inf.seoj.Bytes();
    b := b + [ESV_INFC_RES];
    b := b + [|inf.props| % 256];
    ghost var h := b;
    for i := 0 to |inf.props|
      invariant |b| >= 12 && b[..12] == h
      invariant b + Encode(inf.props[i..]) == h + Encode(inf.props)
    {
      assert inf.props[i..][1..] == inf.props[i + 1..];
      b := b + [inf.props[i].epc, inf.props[i].pdc];
      b := b + inf.props[i].edt;
    }
    assert h == Header(inf.tid, inf.seoj, ESV_INFC_RES, |inf.props|);
  }

  // ----- Round trips -----

  lemma {:induction false} EncodeConcat(a: seq<Property>, b: seq<Property>)
    ensures Encode(a + b) == Encode(a) + Encode(b)
  {
    if |a| == 0 {
      assert a + b == b;
    } else {
      assert (a + b)[1..] == a[1..] + b;
      EncodeConcat(a[1..], b);
    }
  }

  /** A printed property list is read back up to the announced count, whatever follows it. */
  lemma PrintedReadsBack(props: seq<Property>, n: nat, tail: seq<Byte>)
    requires WellFormed(props) && n <= |props|
    ensures Properties(Encode(props) + tail, n) == props[..n]
  {
    assert props == props[..n] + props[n..];
    EncodeConcat(props[..n], props[n..]);
    ReadsAsUnique(Encode(props) + tail, n, props[..n]);
  }

  lemma HeaderReadsBack(tid: Tid, deoj: Eoj, esv: Byte, opc: nat, body: seq<Byte>)
    ensures InfFrameOf(Header(tid, deoj, esv, opc) + body) ==
            Ok(InfFrame(tid, CONTROLLER, deoj, esv, Properties(body, opc % 256)))
  {
  }

  /**
   * Parsing a Get request returns the TID and the first |epcs| mod 256 codes in order,
   * so the request survives exactly when it names at most 255 properties.
   */
  lemma GetRequestRoundTrip(tid: Tid, eoj: Eoj, epcs: seq<Byte>)
    ensures var r := InfFrameOf(Header(tid, eoj, ESV_GET, |epcs|) + Encode(Queries(epcs)));
            && r.Ok?
            && r.value == InfFrame(tid, CONTROLLER, eoj, ESV_GET, Queries(epcs)[..|epcs| % 256])
            && (r.value.props == Queries(epcs) <==> |epcs| <= 255)
  {
    var body := Encode(Queries(epcs));
    HeaderReadsBack(tid, eoj, ESV_GET, |epcs|, body);
    PrintedReadsBack(Queries(epcs), |epcs| % 256, []);
    assert body + [] == body;
    assert |epcs| <= 255 ==> Queries(epcs)[..|epcs|] == Queries(epcs);
  }

  /**
   * Parsing a SetC or SetI request returns the TID and one property; its data is the data sent
   * exactly when that is at most 255 bytes long.
   */
  lemma SetRequestRoundTrip(esv: Byte, tid: Tid, eoj: Eoj, epc: Byte, edt: seq<Byte>)
    ensures var r := InfFrameOf(Header(tid, eoj, esv, 1) + [epc, |edt| % 256] + edt);
            && r.Ok?
            && r.value == InfFrame(tid, CONTROLLER, eoj, esv, [Property(epc, |edt| % 256, edt[..|edt| % 256])])
            && (r.value.props[0].edt == edt <==> |edt| <= 255)
  {
    var n := |edt| % 256;
    var p := Property(epc, n, edt[..n]);
    var body := [epc, n] + edt;
    assert Header(tid, eoj, esv, 1) + [epc, n] + edt == Header(tid, eoj, esv, 1) + body;
    HeaderReadsBack(tid, eoj, esv, 1, body);
    assert [p][1..] == [];
    assert body == Encode([p]) + edt[n..];
    PrintedReadsBack([p], 1, edt[n..]);
    assert [p][..1] == [p];
  }

  /**
   * The acknowledgement built for any frame that was itself parsed carries the same TID and properties
   * back to the object that sent it, and its property count fits the one-byte field.
   */
  lemma InfcResRoundTrip(data: seq<Byte>)
    requires InfFrameOf(data).Ok?
    ensures var inf := InfFrameOf(data).value;
            && |inf.props| <= 255
            && InfFrameOf(Header(inf.tid, inf.seoj, ESV_INFC_RES, |inf.props|) + Encode(inf.props)) ==
               Ok(InfFrame(inf.tid, CONTROLLER, inf.seoj, ESV_INFC_RES, inf.props))
  {
    var inf := InfFrameOf(data).value;
    PropertiesReadsAs(data[12..], data[11]);
    InfcResReadsBack(inf);
  }

  lemma InfcResReadsBack(inf: InfFrame)
    requires WellFormed(inf.props) && |inf.props| <= 255
    ensures InfFrameOf(Header(inf.tid, inf.seoj, ESV_INFC_RES, |inf.props|) + Encode(inf.props)) ==
            Ok(InfFrame(inf.tid, CONTROLLER, inf.seoj, ESV_INFC_RES, inf.props))
  {
    HeaderReadsBack(inf.tid, inf.seoj, ESV_INFC_RES, |inf.props|, Encode(inf.props));
    PrintedReadsBack(inf.props, |inf.props|, []);
    assert Encode(inf.props) + [] == Encode(inf.props);
    assert inf.props[..|inf.props|] == inf.props;
  }

  // ----- Looking a property up -----

  /** The data of the first property with this code and some data. */
  function Prop(props: seq<Property>, epc: Byte): (r: Option<seq<Byte>>)
    ensures r.Some? ==> |r.value| > 0 && exists p :: p in props && p.epc == epc && p.edt == r.value
    ensures r.None? ==> forall p :: p in props && p.epc == epc ==> p.edt == []
  {
    if |props| == 0 then None
    else if props[0].epc == epc && |props[0].edt| > 0 then
      assert props[0] in props;
      Some(props[0].edt)
    else Prop(props[1..], epc)
  }

  /** The i-th property is the first with this code and some data. */
  ghost predicate IsFirst(props: seq<Property>, i: int, epc: Byte) {
    && 0 <= i < |props| && props[i].epc == epc && |props[i].edt| > 0
    && forall j :: 0 <= j < i && props[j].epc == epc ==> props[j].edt == []
  }

  lemma {:induction false} PropFound(props: seq<Property>, i: int, epc: Byte)
    requires IsFirst(props, i, epc)
    ensures Prop(props, epc) == Some(props[i].edt)
  {
    if i > 0 {
      assert IsFirst(props[1..], i - 1, epc);
      PropFound(props[1..], i - 1, epc);
    }
  }

  lemma {:induction false} FirstExists(props: seq<Property>, epc: Byte) returns (i: int)
    requires Prop(props, epc).Some?
    ensures IsFirst(props, i, epc)
  {
    if props[0].epc == epc && |props[0].edt| > 0 {
      i := 0;
    } else {
      i := FirstExists(props[1..], epc);
      i := i + 1;
    }
  }

  /** A lookup finds exactly the data of the first property with this code and some data. */
  lemma {:induction false} PropIsFirst(props: seq<Property>, epc: Byte, edt: seq<Byte>)
    ensures Prop(props, epc) == Some(edt) <==> exists i :: IsFirst(props, i, epc) && props[i].edt == edt
  {
    if Prop(props, epc) == Some(edt) {
      var i := FirstExists(props, epc);
      PropFound(props, i, epc);
    }
    if i :| IsFirst(props, i, epc) && props[i].edt == edt {
      PropFound(props, i, epc);
    }
  }

  lemma {:induction false} PropConcat(a: seq<Property>, b: seq<Property>, epc: Byte)
    ensures Prop(a + b, epc) == if Prop(a, epc).Some? then Prop(a, epc) else Prop(b, epc)
  {
    if |a| == 0 {
      assert a + b == b;
    } else {
      assert (a + b)[1..] == a[1..] + b;
      PropConcat(a[1..], b, epc);
    }
  }
}
