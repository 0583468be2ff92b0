/** HTTP/3 frames (internal/http3/frames.go; sections 7.1 and 7.2 of RFC 9114). */
module Http3Frames {
  import opened MachineInts
  import opened Wrappers
  import opened Sequences
  import opened Varint

  const SETTING_EXTENDED_CONNECT := 0x8
  const SETTING_DATAGRAM := 0x33
  const MAX_SETTINGS := 8192

  datatype Http3Error =
    | IO(err: IOError)
    | DuplicateSetting(id: nat)
    | InvalidSetting(id: nat)
    | SettingsTooLarge
    | ReservedFrame(ftype: nat)
    | UnexpectedFrame
    | DataAfterTrailers
    | HeadersAfterTrailers
    | BadTrailers
    | TooMuchData

  datatype Settings = Settings(datagram: bool, extendedConnect: bool, other: map<nat, nat>)

  datatype H3Frame = DataFrame(length: nat) | HeadersFrame(length: nat) | SettingsFrame(settings: Settings)

  // ------------------------------------------------------------ parsing settings

  /** What the loop of parseSettingsFrame has gathered. */
  datatype Gathered = Gathered(settings: Settings, readDatagram: bool, readExtendedConnect: bool)

  const NOTHING := Gathered(Settings(false, false, map[]), false, false)

  function Apply(g: Gathered, id: nat, val: nat): Result<Gathered, Http3Error> {
    if id == SETTING_EXTENDED_CONNECT then
      if g.readExtendedConnect then Err(DuplicateSetting(id))
      else if val > 1 then Err(InvalidSetting(id))
      else Ok(g.(settings := g.settings.(extendedConnect := val == 1), readExtendedConnect := true))
    else if id == SETTING_DATAGRAM then
      if g.readDatagram then Err(DuplicateSetting(id))
      else if val > 1 then Err(InvalidSetting(id))
      else Ok(g.(settings := g.settings.(datagram := val == 1), readDatagram := true))
    else if id in g.settings.other then Err(DuplicateSetting(id))
    else Ok(g.(settings := g.settings.(other := g.settings.other[id := val])))
  }

  function Gather(b: seq<byte>, g: Gathered): (r: Result<Gathered, Http3Error>)
    ensures r != Err(TooMuchData)
    decreases |b|
  {
    if b == [] then Ok(g)
    else
      match ReadFrom(b, EOF)
      case (Err(e), _) => Err(IO(e))
      case (Ok(id), r1) =>
        match ReadFrom(r1, EOF)
        case (Err(e), _) => Err(IO(e))
        case (Ok(val), r2) =>
          match Apply(g, id, val)
          case Err(e) => Err(e)
          case Ok(g') => Gather(r2, g')
  }

  /** parseSettingsFrame: the frame and the input after it. */
  function ParseSettings(input: seq<byte>, l: nat, end: IOError): (r: (Result<H3Frame, Http3Error>, seq<byte>))
    ensures |r.1| <= |input| && r.0 != Err(TooMuchData)
  {
    if l > MAX_SETTINGS then (Err(SettingsTooLarge), input)
    else if |input| < l then (Err(IO(if end == UnexpectedEOF then EOF else end)), [])
    else
      match Gather(input[..l], NOTHING)
      case Err(e) => (Err(e), input[l..])
      case Ok(g) => (Ok(SettingsFrame(g.settings)), input[l..])
  }

  /** ParseNext without an unknown-frame handler. */
  function NextFrame(input: seq<byte>, end: IOError): (r: (Result<H3Frame, Http3Error>, seq<byte>))
    ensures |r.1| <= |input| && (r.0.Ok? ==> |r.1| < |input|) && r.0 != Err(TooMuchData)
    decreases |input|
  {
    match ReadFrom(input, end)
    case (Err(e), rest) => (Err(IO(e)), rest)
    case (Ok(t), r1) =>
      match ReadFrom(r1, end)
      case (Err(e), rest) => (Err(IO(e)), rest)
      case (Ok(l), r2) =>
        if t == 0 then (Ok(DataFrame(l)), r2)
        else if t == 1 then (Ok(HeadersFrame(l)), r2)
        else if t == 4 then ParseSettings(r2, l, end)
        else if t == 2 || t == 6 || t == 8 || t == 9 then (Err(ReservedFrame(t)), r2)
        else if |r2| < l then (Err(IO(end)), [])
        else NextFrame(r2[l..], end)
  }

  // ------------------------------------------------------------ writing

  /** quicvarint.Append to nothing. */
  function Var(i: nat): seq<byte>
    requires i <= MAX_8
  {
    Enc(i, Len(i))
  }

  predicate Fit(pairs: seq<(nat, nat)>) { forall i :: 0 <= i < |pairs| ==> pairs[i].0 <= MAX_8 && pairs[i].1 <= MAX_8 }

  function Payload(pairs: seq<(nat, nat)>): seq<byte>
    requires Fit(pairs)
  {
    if pairs == [] then [] else Var(pairs[0].0) + Var(pairs[0].1) + Payload(pairs[1..])
  }

  /** An order in which Go may range over the map. */
  predicate IsOrder(order: seq<nat>, m: map<nat, nat>) {
    Distinct(order) && (forall i :: 0 <= i < |order| ==> order[i] in m) && (forall id :: id in m ==> id in order)
  }

  predicate Sendable(f: Settings) { forall id :: id in f.other ==> id <= MAX_8 && f.other[id] <= MAX_8 }

  function PairsOf(order: seq<nat>, m: map<nat, nat>): (pairs: seq<(nat, nat)>)
    requires forall i :: 0 <= i < |order| ==> order[i] in m
    ensures |pairs| == |order| && forall i :: 0 <= i < |order| ==> pairs[i] == (order[i], m[order[i]])
  {
    seq(|order|, i requires 0 <= i < |order| => (order[i], m[order[i]]))
  }

  function Known(f: Settings): seq<(nat, nat)> {
    (if f.datagram then [(SETTING_DATAGRAM, 1)] else [])
    + (if f.extendedConnect then [(SETTING_EXTENDED_CONNECT, 1)] else [])
  }

  function Pairs(f: Settings, order: seq<nat>): (pairs: seq<(nat, nat)>)
    requires IsOrder(order, f.other) && Sendable(f)
    ensures Fit(pairs)
  {
    Known(f) + PairsOf(order, f.other)
  }

  function SettingsWire(f: Settings, order: seq<nat>): seq<byte>
    requires IsOrder(order, f.other) && Sendable(f) && |Payload(Pairs(f, order))| <= MAX_8
  {
    Var(4) + Var(|Payload(Pairs(f, order))|) + Payload(Pairs(f, order))
  }

  // ------------------------------------------------------------ the settings round trip

  function ApplyAll(pairs: seq<(nat, nat)>, g: Gathered): Result<Gathered, Http3Error>
    decreases |pairs|
  {
    if pairs == [] then Ok(g)
    else
      match Apply(g, pairs[0].0, pairs[0].1)
      case Err(e) => Err(e)
      case Ok(g') => ApplyAll(pairs[1..], g')
  }

  lemma {:induction false} GatherPayload(pairs: seq<(nat, nat)>, g: Gathered)
    requires Fit(pairs)
    ensures Gather(Payload(pairs), g) == ApplyAll(pairs, g)
    decreases |pairs|
  {
    if pairs != [] {
      var (id, val) := pairs[0];
      var tail := Payload(pairs[1..]);
      assert Payload(pairs) == Var(id) + (Var(val) + tail);
      ReadInvertsEnc(id, Len(id), Var(val) + tail, EOF);
      ReadInvertsEnc(val, Len(val), tail, EOF);
      if Apply(g, id, val).Ok? {
        GatherPayload(pairs[1..], Apply(g, id, val).value);
      }
    }
  }

  lemma {:induction false} ApplyAllAppend(a: seq<(nat, nat)>, b: seq<(nat, nat)>, g: Gathered)
    ensures ApplyAll(a + b, g) == (match ApplyAll(a, g) case Err(e) => Err(e) case Ok(g') => ApplyAll(b, g'))
    decreases |a|
  {
    if a == [] {
      assert a + b == b;
    } else {
      assert (a + b)[1..] == a[1..] + b;
      var r := Apply(g, a[0].0, a[0].1);
      if r.Ok? {
        ApplyAllAppend(a[1..], b, r.value);
      }
    }
  }

  predicate Ours(id: nat) { id == SETTING_EXTENDED_CONNECT || id == SETTING_DATAGRAM }

  function Chosen(order: seq<nat>, m: map<nat, nat>): map<nat, nat>
    requires forall i :: 0 <= i < |order| ==> order[i] in m
  {
    map id | id in order :: m[id]
  }

  function WithOthers(g: Gathered, others: map<nat, nat>): Gathered {
    g.(settings := g.settings.(other := g.settings.other + others))
  }

  lemma ChosenStep(order: seq<nat>, m: map<nat, nat>, base: map<nat, nat>)
    requires order != [] && forall i :: 0 <= i < |order| ==> order[i] in m
    requires order[0] !in order[1..]
    ensures base[order[0] := m[order[0]]] + Chosen(order[1..], m) == base + Chosen(order, m)
  {
    assert order == [order[0]] + order[1..];
  }

  /** Settings that the parser does not interpret, none of them yet gathered, are all kept. */
  lemma {:induction false} ApplyOthers(order: seq<nat>, m: map<nat, nat>, g: Gathered)
    requires Distinct(order)
    requires forall i :: 0 <= i < |order| ==> order[i] in m && !Ours(order[i]) && order[i] !in g.settings.other
    ensures ApplyAll(PairsOf(order, m), g) == Ok(WithOthers(g, Chosen(order, m)))
    decreases |order|
  {
    if order == [] {
      assert WithOthers(g, Chosen(order, m)).settings.other == g.settings.other;
    } else {
      var pairs := PairsOf(order, m);
      var g' := WithOthers(g, map[order[0] := m[order[0]]]);
      assert g.settings.other[order[0] := m[order[0]]] == g'.settings.other;
      assert Apply(g, order[0], m[order[0]]) == Ok(g');
      assert pairs[1..] == PairsOf(order[1..], m);
      ApplyOthers(order[1..], m, g');
      ChosenStep(order, m, g.settings.other);
    }
  }

  /** The settings come back, whatever the order the map was ranged over. */
  lemma GatherInvertsPairs(f: Settings, order: seq<nat>)
    requires IsOrder(order, f.other) && Sendable(f) && forall id :: Ours(id) ==> id !in f.other
    ensures var r := Gather(Payload(Pairs(f, order)), NOTHING); r.Ok? && r.value.settings == f
  {
    GatherPayload(Pairs(f, order), NOTHING);
    ApplyAllAppend(Known(f), PairsOf(order, f.other), NOTHING);
    KnownApplies(f);
    AllChosen(f, order);
  }

  lemma AllChosen(f: Settings, order: seq<nat>)
    requires IsOrder(order, f.other) && forall id :: Ours(id) ==> id !in f.other
    ensures var g := Gathered(Settings(f.datagram, f.extendedConnect, map[]), f.datagram, f.extendedConnect);
      var r := ApplyAll(PairsOf(order, f.other), g);
      r.Ok? && r.value.settings == f
  {
    var g := Gathered(Settings(f.datagram, f.extendedConnect, map[]), f.datagram, f.extendedConnect);
    ApplyOthers(order, f.other, g);
    assert g.settings.other + Chosen(order, f.other) == f.other;
  }

  lemma KnownApplies(f: Settings)
    ensures ApplyAll(Known(f), NOTHING)
      == Ok(Gathered(Settings(f.datagram, f.extendedConnect, map[]), f.datagram, f.extendedConnect))
  {
    var d: (nat, nat) := (SETTING_DATAGRAM, 1);
    var e: (nat, nat) := (SETTING_EXTENDED_CONNECT, 1);
    var none: seq<(nat, nat)> := [];
    assert [e][1..] == none && [d][1..] == none;
    var a: seq<(nat, nat)> := if f.datagram then [d] else [];
    var b: seq<(nat, nat)> := if f.extendedConnect then [e] else [];
    ApplyAllAppend(a, b, NOTHING);
    assert Known(f) == a + b;
  }

  /** What the parser gathers never has one of its own settings among the others. */
  lemma {:induction false} GatherKeepsOursApart(b: seq<byte>, g: Gathered)
    requires forall id :: Ours(id) ==> id !in g.settings.other
    ensures Gather(b, g).Ok? ==> forall id :: Ours(id) ==> id !in Gather(b, g).value.settings.other
    decreases |b|
  {
    if b != [] && Gather(b, g).Ok? {
      var (id, r1) := ReadFrom(b, EOF);
      var (val, r2) := ReadFrom(r1, EOF);
      GatherKeepsOursApart(r2, Apply(g, id.value, val.value).value);
    }
  }

  lemma SettingsFrameIsRead(p: seq<byte>, rest: seq<byte>, end: IOError)
    requires |p| <= MAX_8
    ensures var (r, left) := NextFrame(Var(4) + Var(|p|) + p + rest, end);
      if |p| > MAX_SETTINGS then r == Err(SettingsTooLarge)
      else left == rest
           && r == match Gather(p, NOTHING) case Err(e) => Err(e) case Ok(g) => Ok(SettingsFrame(g.settings))
  {
    var l := |p|;
    assert Var(4) + Var(l) + p + rest == Var(4) + (Var(l) + (p + rest));
    ReadInvertsEnc(4, 1, Var(l) + (p + rest), end);
    ReadInvertsEnc(l, Len(l), p + rest, end);
    assert (p + rest)[..l] == p && (p + rest)[l..] == rest;
  }

  /**
   * Main result: written settings read back as they were, with exactly what follows them left, precisely when
   * they fit the 8 KiB limit and none of the two interpreted settings is listed among the others.
   */
  lemma SettingsRoundTrip(f: Settings, order: seq<nat>, rest: seq<byte>, end: IOError)
    requires IsOrder(order, f.other) && Sendable(f) && |Payload(Pairs(f, order))| <= MAX_8
    ensures NextFrame(SettingsWire(f, order) + rest, end) == (Ok(SettingsFrame(f)), rest)
      <==> |Payload(Pairs(f, order))| <= MAX_SETTINGS && forall id :: Ours(id) ==> id !in f.other
  {
    var p := Payload(Pairs(f, order));
    SettingsFrameIsRead(p, rest, end);
    GatherKeepsOursApart(p, NOTHING);
    if forall id :: Ours(id) ==> id !in f.other {
      GatherInvertsPairs(f, order);
    }
  }

  /** A DATA or HEADERS frame header reads back. */
  lemma HeaderRoundTrip(headers: bool, length: nat, rest: seq<byte>, end: IOError)
    requires length <= MAX_8
    ensures NextFrame(Var(if headers then 1 else 0) + Var(length) + rest, end)
      == (Ok(if headers then HeadersFrame(length) else DataFrame(length)), rest)
  {
    var t := if headers then 1 else 0;
    assert Var(t) + Var(length) + rest == Var(t) + (Var(length) + rest);
    ReadInvertsEnc(t, 1, Var(length) + rest, end);
    ReadInvertsEnc(length, Len(length), rest, end);
  }

  // ------------------------------------------------------------ the lengths, in any order

  /** What settingsFrame.Append adds up before it writes. */
  function Weight(order: seq<nat>, m: map<nat, nat>): nat
    requires forall i :: 0 <= i < |order| ==> order[i] in m && order[i] <= MAX_8 && m[order[i]] <= MAX_8
  {
    if order == [] then 0 else Len(order[0]) + Len(m[order[0]]) + Weight(order[1..], m)
  }

  lemma {:induction false} WeightIsLength(order: seq<nat>, m: map<nat, nat>)
    requires forall i :: 0 <= i < |order| ==> order[i] in m && order[i] <= MAX_8 && m[order[i]] <= MAX_8
    ensures |Payload(PairsOf(order, m))| == Weight(order, m)
  {
    if order != [] {
      assert PairsOf(order, m)[1..] == PairsOf(order[1..], m);
      WeightIsLength(order[1..], m);
    }
  }

  lemma {:induction false} WeightWithout(order: seq<nat>, m: map<nat, nat>, i: nat)
    requires i < |order|
    requires forall j :: 0 <= j < |order| ==> order[j] in m && order[j] <= MAX_8 && m[order[j]] <= MAX_8
    ensures Weight(order, m) == Len(order[i]) + Len(m[order[i]]) + Weight(order[..i] + order[i + 1..], m)
  {
    if i == 0 {
      assert order[..0] + order[1..] == order[1..];
    } else {
      var rest := order[..i] + order[i + 1..];
      assert rest[0] == order[0] && rest[1..] == order[1..][..i - 1] + order[1..][i..];
      WeightWithout(order[1..], m, i - 1);
    }
  }

  /** Go ranges over the map twice, and perhaps in different orders: the length is the same. */
  lemma {:induction false} WeightOfAnyOrder(a: seq<nat>, b: seq<nat>, m: map<nat, nat>)
    requires Distinct(a) && Distinct(b) && (forall x :: x in a <==> x in b)
    requires forall j :: 0 <= j < |a| ==> a[j] in m && a[j] <= MAX_8 && m[a[j]] <= MAX_8
    requires forall j :: 0 <= j < |b| ==> b[j] in m && b[j] <= MAX_8 && m[b[j]] <= MAX_8
    ensures Weight(a, m) == Weight(b, m)
    decreases |a|
  {
    if a == [] {
      if b != [] {
        SomeElement(b);
      }
    } else {
      assert a[0] in b;
      var i :| 0 <= i < |b| && b[i] == a[0];
      WeightWithout(b, m, i);
      var b' := b[..i] + b[i + 1..];
      SameWithout(a, b, i);
      WeightOfAnyOrder(a[1..], b', m);
    }
  }

  lemma SomeElement(b: seq<nat>)
    requires b != []
    ensures exists x :: x in b
  {
    assert b[0] in b;
  }

  lemma SameWithout(a: seq<nat>, b: seq<nat>, i: nat)
    requires Distinct(a) && Distinct(b) && (forall x :: x in a <==> x in b) && a != [] && i < |b| && b[i] == a[0]
    ensures Distinct(b[..i] + b[i + 1..])
    ensures forall x :: x in a[1..] <==> x in b[..i] + b[i + 1..]
  {
    var b' := b[..i] + b[i + 1..];
    assert a == [a[0]] + a[1..] && b == b[..i] + [b[i]] + b[i + 1..];
    forall x
      ensures x in a[1..] <==> x in b'
    {
      assert x in a <==> x == a[0] || x in a[1..];
      assert x in b <==> x == b[i] || x in b';
      assert a[0] !in a[1..];
      assert b[i] !in b';
    }
  }
}
