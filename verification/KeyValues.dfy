/**
 The command parsers (`actors/framework/ev_command_actor.c`): `key=value` lists separated
 by semicolons, and unsigned decimals, each against its renderer.
 */
module KeyValues {
  import opened Results

  const PAYLOAD_MAX: nat := 128
  const MAX_DIGITS: nat := 10
  const UINT32_MAX: nat := 0xFFFF_FFFF

  datatype Pair = Pair(key: string, value: string)

  /** The keys a command reads; a pair with any other key is ignored. */
  predicate Known(key: string) {
    || key == "token" || key == "mask" || key == "valid" || key == "text"
    || key == "arm" || key == "confirm" || key == "ms"
  }

  predicate Printable(s: string) {
    forall i :: 0 <= i < |s| ==> ' ' <= s[i] <= '~'
  }

  predicate GoodPair(p: Pair) {
    && p.key != ""
    && (forall i :: 0 <= i < |p.key| ==> p.key[i] != '=' && p.key[i] != ';')
    && forall i :: 0 <= i < |p.value| ==> p.value[i] != ';'
  }

  predicate GoodPairs(ps: seq<Pair>) {
    forall i :: 0 <= i < |ps| ==> GoodPair(ps[i])
  }

  function RenderPair(p: Pair): string {
    p.key + "=" + p.value
  }

  /** The pairs, separated by semicolons. */
  function Render(ps: seq<Pair>): string {
    if ps == [] then ""
    else if |ps| == 1 then RenderPair(ps[0])
    else RenderPair(ps[0]) + ";" + Render(ps[1..])
  }

  /** The values a command ends up with. */
  function LastValues(ps: seq<Pair>): map<string, string>
    decreases |ps|
  {
    if ps == [] then map[] else Record(LastValues(ps[..|ps| - 1]), ps[|ps| - 1])
  }

  function Record(m: map<string, string>, p: Pair): map<string, string> {
    if Known(p.key) then m[p.key := p.value] else m
  }

  /** A known key has the value of its last pair. */
  lemma {:induction false} LastValueWins(ps: seq<Pair>, i: nat)
    requires i < |ps| && Known(ps[i].key) && forall j :: i < j < |ps| ==> ps[j].key != ps[i].key
    ensures ps[i].key in LastValues(ps) && LastValues(ps)[ps[i].key] == ps[i].value
    decreases |ps|
  {
    hide Known;
    if i < |ps| - 1 {
      LastValueWins(ps[..|ps| - 1], i);
    }
  }

  /** Only known keys that were given have a value. */
  lemma {:induction false} OnlyGivenKeys(ps: seq<Pair>, k: string)
    requires k in LastValues(ps)
    ensures Known(k) && exists i :: 0 <= i < |ps| && ps[i].key == k
    decreases |ps|
  {
    hide Known;
    if ps != [] {
      var n := |ps| - 1;
      if ps[n].key != k || !Known(k) {
        OnlyGivenKeys(ps[..n], k);
        var i :| 0 <= i < n && ps[..n][i].key == k;
        assert ps[i].key == k;
      }
    }
  }

  /** The last pair of this key gives it this value. */
  ghost predicate Says(ps: seq<Pair>, key: string, value: string) {
    exists i :: 0 <= i < |ps| && ps[i] == Pair(key, value) && forall j :: i < j < |ps| ==> ps[j].key != key
  }

  ghost predicate Mentions(ps: seq<Pair>, key: string) {
    exists i :: 0 <= i < |ps| && ps[i].key == key
  }

  /** The last place of a key. */
  lemma {:induction false} LastPlace(ps: seq<Pair>, key: string) returns (i: nat)
    requires Mentions(ps, key)
    ensures i < |ps| && ps[i].key == key && forall j :: i < j < |ps| ==> ps[j].key != key
    decreases |ps|
  {
    var last := |ps| - 1;
    if ps[last].key == key {
      i := last;
    } else {
      var k :| 0 <= k < |ps| && ps[k].key == key;
      assert ps[..last][k].key == key;
      i := LastPlace(ps[..last], key);
    }
  }

  /** The recorded values are exactly what the pairs say. */
  lemma ValuesAreSaid(ps: seq<Pair>, key: string, value: string)
    requires Known(key)
    ensures key in LastValues(ps) <==> Mentions(ps, key)
    ensures key in LastValues(ps) && LastValues(ps)[key] == value <==> Says(ps, key, value)
  {
    if key in LastValues(ps) {
      OnlyGivenKeys(ps, key);
    }
    if Mentions(ps, key) {
      var i := LastPlace(ps, key);
      LastValueWins(ps, i);
      assert ps[i] == Pair(key, LastValues(ps)[key]);
    }
  }

  // ----- reading -----

  predicate Stops(c: char, inKey: bool) {
    c == ';' || (inKey && c == '=')
  }

  /** The first place from `i` on where a key, or a value, ends. */
  function End(s: string, i: nat, inKey: bool): (e: nat)
    requires i <= |s|
    ensures i <= e <= |s| && (e < |s| ==> Stops(s[e], inKey))
    ensures forall j :: i <= j < e ==> !Stops(s[j], inKey)
    decreases |s| - i
  {
    if i == |s| || Stops(s[i], inKey) then i else End(s, i + 1, inKey)
  }

  /** The pair at `c` and where the next one starts. */
  function Next(s: string, c: nat): (o: Option<(Pair, nat)>)
    requires c <= |s|
    ensures o.Some? ==> c < o.value.1 <= |s| && GoodPair(o.value.0)
  {
    var eq := End(s, c, true);
    if eq == c || eq == |s| || s[eq] == ';' then None
    else
      var end := End(s, eq + 1, false);
      Some((Pair(s[c..eq], s[eq + 1..end]), if end < |s| then end + 1 else end))
  }

  function Parse(s: string, c: nat): (o: Option<seq<Pair>>)
    requires c <= |s|
    ensures o.Some? ==> GoodPairs(o.value)
    decreases |s| - c
  {
    if c == |s| then Some([])
    else
      var n := Next(s, c);
      if n.None? then None
      else
        var rest := Parse(s, n.value.1);
        if rest.None? then None else Some([n.value.0] + rest.value)
  }

  /** The scan over a key or a value. */
  method Scan(s: string, i: nat, inKey: bool) returns (e: nat)
    requires i <= |s|
    ensures e == End(s, i, inKey)
  {
    e := i;
    while e < |s| && !Stops(s[e], inKey)
      invariant i <= e <= |s| && End(s, e, inKey) == End(s, i, inKey)
    {
      e := e + 1;
    }
  }

  /** Read one pair; the cursor strictly advances. */
  method ParseNextKv(s: string, cursor: nat) returns (found: bool, pair: Pair, next: nat)
    requires cursor < |s|
    ensures Next(s, cursor) == if found then Some((pair, next)) else None
  {
    var eq := Scan(s, cursor, true);
    pair, next := Pair("", ""), cursor;
    if eq == cursor || eq >= |s| || s[eq] != '=' {
      return false, pair, next;
    }
    var end := Scan(s, eq + 1, false);
    pair := Pair(s[cursor..eq], s[eq + 1..end]);
    next := if end < |s| then end + 1 else end;
    found := true;
  }

  predicate Acceptable(s: string) {
    0 < |s| <= PAYLOAD_MAX && Printable(s) && Parse(s, 0).Some?
  }

  /** Read a payload into the values of the known keys. */
  method ParsePayload(s: string) returns (ok: bool, state: map<string, string>)
    ensures ok <==> Acceptable(s)
    ensures ok ==> state == LastValues(Parse(s, 0).value)
  {
    hide Parse, Next, Known;
    state := map[];
    if |s| == 0 || |s| > PAYLOAD_MAX || !Printable(s) {
      return false, state;
    }
    var cursor := 0;
    ghost var done: seq<Pair> := [];
    Joined0(Parse(s, 0));
    while cursor < |s|
      invariant cursor <= |s| && state == LastValues(done)
      invariant Parse(s, 0) == Joined(done, Parse(s, cursor))
    {
      ParseStep(s, cursor, done);
      var found, pair, next := ParseNextKv(s, cursor);
      if !found {
        return false, state;
      }
      if Known(pair.key) {
        state := state[pair.key := pair.value];
      }
      assert (done + [pair])[..|done + [pair]| - 1] == done;
      done := done + [pair];
      cursor := next;
    }
    ParseEnd(s, done);
    ok := true;
  }

  function Joined(done: seq<Pair>, o: Option<seq<Pair>>): Option<seq<Pair>> {
    if o.None? then None else Some(done + o.value)
  }

  lemma Joined0(o: Option<seq<Pair>>)
    ensures Joined([], o) == o
  {
    assert o.Some? ==> [] + o.value == o.value;
  }

  lemma ParseStep(s: string, c: nat, done: seq<Pair>)
    requires c < |s|
    ensures Next(s, c).Some? ==> c < Next(s, c).value.1 <= |s|
    ensures Joined(done, Parse(s, c)) ==
            if Next(s, c).None? then None else Joined(done + [Next(s, c).value.0], Parse(s, Next(s, c).value.1))
  {
    hide Next;
    if Next(s, c).Some? {
      var (p, n) := Next(s, c).value;
      if Parse(s, n).Some? {
        assert done + ([p] + Parse(s, n).value) == done + [p] + Parse(s, n).value;
      }
    }
  }

  lemma ParseEnd(s: string, done: seq<Pair>)
    ensures Joined(done, Parse(s, |s|)) == Some(done)
  {
    assert done + [] == done;
  }

  // ----- round trips -----

  lemma EndIs(s: string, i: nat, inKey: bool, e: nat)
    requires i <= e <= |s| && (e < |s| ==> Stops(s[e], inKey))
    requires forall j :: i <= j < e ==> !Stops(s[j], inKey)
    ensures End(s, i, inKey) == e
  {
  }

  lemma KeyEnds(a: string, p: Pair, z: string)
    requires GoodPair(p)
    ensures End(a + RenderPair(p) + z, |a|, true) == |a| + |p.key|
  {
    hide End;
    var s := a + RenderPair(p) + z;
    forall j | |a| <= j < |a| + |p.key| ensures !Stops(s[j], true) {
      assert s[j] == p.key[j - |a|];
    }
    assert s[|a| + |p.key|] == '=';
    EndIs(s, |a|, true, |a| + |p.key|);
  }

  /** Where the characters of a pair stand. */
  lemma PairStands(a: string, p: Pair, z: string)
    ensures
      var s, i := a + RenderPair(p) + z, |a| + |p.key| + 1;
      && |s| == i + |p.value| + |z| && |a| + |RenderPair(p)| == i + |p.value|
      && s[i..i + |p.value|] == p.value && s[i + |p.value|..] == z
  {
    var s, i := a + RenderPair(p) + z, |a| + |p.key| + 1;
    assert s == (a + p.key + "=") + (p.value + z);
    assert s[i..] == p.value + z;
  }

  lemma ValueEnds(a: string, p: Pair, z: string)
    requires GoodPair(p) && (z != "" ==> z[0] == ';')
    ensures End(a + RenderPair(p) + z, |a| + |p.key| + 1, false) == |a| + |RenderPair(p)|
  {
    hide End, RenderPair;
    var s := a + RenderPair(p) + z;
    var i, e := |a| + |p.key| + 1, |a| + |p.key| + 1 + |p.value|;
    PairStands(a, p, z);
    forall j | i <= j < e ensures !Stops(s[j], false) {
      assert s[j] == s[i..e][j - i] == p.value[j - i];
    }
    if z != "" {
      assert s[e] == s[e..][0];
    }
    EndIs(s, i, false, e);
  }

  /** A pair written between `a` and a semicolon or the end is the pair read there. */
  lemma ReadsPair(a: string, p: Pair, z: string)
    requires GoodPair(p) && (z != "" ==> z[0] == ';')
    ensures
      var s := a + RenderPair(p) + z;
      Next(s, |a|) == Some((p, if z != "" then |a| + |RenderPair(p)| + 1 else |s|))
  {
    hide End, Stops, GoodPair;
    KeyEnds(a, p, z);
    ValueEnds(a, p, z);
    KeyIsNotEmpty(p);
    var s := a + RenderPair(p) + z;
    var eq, end := |a| + |p.key|, |a| + |RenderPair(p)|;
    assert s[eq] == '=' && s[|a|..eq] == p.key && s[eq + 1..end] == p.value;
  }

  lemma KeyIsNotEmpty(p: Pair)
    requires GoodPair(p)
    ensures |p.key| > 0
  {
  }

  /** Rendering a list of good pairs and parsing it, with or without a final semicolon, gives it back. */
  lemma {:induction false} ParseOfRender(a: string, ps: seq<Pair>, final: bool)
    requires GoodPairs(ps) && (final ==> ps != [])
    ensures Parse(a + Render(ps) + (if final then ";" else ""), |a|) == Some(ps)
    decreases |ps|
  {
    hide GoodPair, RenderPair, Next;
    var tail := if final then ";" else "";
    var s := a + Render(ps) + tail;
    if ps != [] {
      var r := RenderPair(ps[0]);
      KeyIsNotEmpty(ps[0]);
      PairLength(ps[0]);
      assert ps == [ps[0]] + ps[1..];
      if |ps| == 1 {
        assert s == a + r + tail;
        ReadsPair(a, ps[0], tail);
        assert Parse(s, |s|) == Some([]);
      } else {
        var z := ";" + Render(ps[1..]) + tail;
        assert s == a + r + z;
        ReadsPair(a, ps[0], z);
        assert s == (a + r + ";") + Render(ps[1..]) + tail;
        ParseOfRender(a + r + ";", ps[1..], final);
      }
    }
  }

  lemma PairLength(p: Pair)
    ensures |RenderPair(p)| > 0
  {
  }

  /** What one step of the parser read is the pair's rendering and its separator. */
  lemma NextIsRendered(s: string, c: nat)
    requires c <= |s| && Next(s, c).Some?
    ensures
      var (p, n) := Next(s, c).value;
      s[c..n] == RenderPair(p) || s[c..n] == RenderPair(p) + ";"
    ensures
      var (p, n) := Next(s, c).value;
      n < |s| ==> s[c..n] == RenderPair(p) + ";"
  {
    var eq := End(s, c, true);
    var end := End(s, eq + 1, false);
    assert s[c..end] == s[c..eq] + "=" + s[eq + 1..end];
    if end < |s| {
      assert s[c..end + 1] == s[c..end] + ";";
    }
  }

  /** Everything the parser accepts is the rendering of what it returns, perhaps with a final semicolon. */
  lemma {:induction false} RenderOfParse(s: string, c: nat)
    requires c <= |s| && Parse(s, c).Some?
    ensures
      var ps := Parse(s, c).value;
      s[c..] == Render(ps) || (ps != [] && s[c..] == Render(ps) + ";")
    decreases |s| - c
  {
    hide Next, Render, RenderPair;
    if c == |s| {
      NothingRendered();
    } else {
      var (p, n) := Next(s, c).value;
      RenderOfParse(s, n);
      NextIsRendered(s, c);
      RenderCons(p, Parse(s, n).value);
      assert s[c..] == s[c..n] + s[n..];
    }
  }

  lemma NothingRendered()
    ensures Render([]) == []
  {
  }

  lemma RenderCons(p: Pair, rest: seq<Pair>)
    ensures Render([p] + rest) == if rest == [] then RenderPair(p) else RenderPair(p) + ";" + Render(rest)
  {
    assert ([p] + rest)[1..] == rest;
  }

  /** A payload is a rendering: good pairs, at least one, and perhaps a final semicolon. */
  ghost predicate IsRendering(s: string, ps: seq<Pair>) {
    GoodPairs(ps) && ps != [] && (s == Render(ps) || s == Render(ps) + ";")
  }

  lemma RenderingParses(s: string, ps: seq<Pair>)
    requires IsRendering(s, ps)
    ensures Parse(s, 0) == Some(ps)
  {
    hide GoodPairs, Parse, Render;
    var final := s != Render(ps);
    assert "" + Render(ps) + (if final then ";" else "") == s;
    ParseOfRender("", ps, final);
  }

  lemma ParsedIsRendering(s: string)
    requires s != "" && Parse(s, 0).Some?
    ensures IsRendering(s, Parse(s, 0).value)
  {
    hide GoodPairs, Render, Next;
    assert s[0..] == s;
    RenderOfParse(s, 0);
    assert Parse(s, 0).value != [];
  }

  /** Accepted payloads are exactly the printable renderings of up to 128 characters, of one list each. */
  lemma AcceptedPayloads(s: string)
    ensures Acceptable(s) <==> |s| <= PAYLOAD_MAX && Printable(s) && exists ps :: IsRendering(s, ps)
    ensures forall ps :: IsRendering(s, ps) ==> Parse(s, 0) == Some(ps)
  {
    hide IsRendering, Parse, Printable;
    forall ps | IsRendering(s, ps) ensures Parse(s, 0) == Some(ps) && s != "" {
      RenderingParses(s, ps);
      RenderingIsNotEmpty(s, ps);
    }
    if s != "" && Parse(s, 0).Some? {
      ParsedIsRendering(s);
    }
  }

  lemma RenderingIsNotEmpty(s: string, ps: seq<Pair>)
    requires IsRendering(s, ps)
    ensures s != ""
  {
    PairLength(ps[0]);
  }

  // ----- decimals -----

  predicate IsDigit(c: char) {
    '0' <= c <= '9'
  }

  predicate AllDigits(s: string) {
    forall i :: 0 <= i < |s| ==> IsDigit(s[i])
  }

  function DigitValue(c: char): (d: nat)
    requires IsDigit(c)
    ensures d < 10
  {
    c as int - '0' as int
  }

  function DecimalValue(s: string): nat
    requires AllDigits(s)
    decreases |s|
  {
    if s == "" then 0 else 10 * DecimalValue(s[..|s| - 1]) + DigitValue(s[|s| - 1])
  }

  lemma {:induction false} PrefixIsSmaller(s: string, i: nat)
    requires AllDigits(s) && i <= |s|
    ensures DecimalValue(s[..i]) <= DecimalValue(s)
    decreases |s|
  {
    if i < |s| {
      PrefixIsSmaller(s[..|s| - 1], i);
      assert s[..|s| - 1][..i] == s[..i];
    } else {
      assert s[..i] == s;
    }
  }

  /** One to ten digits of a value that fits 32 bits. */
  predicate IsUint32(s: string) {
    1 <= |s| <= MAX_DIGITS && AllDigits(s) && DecimalValue(s) <= UINT32_MAX
  }

  /** The overflow guard refuses exactly the values that do not fit. */
  method ParseUint32Dec(s: string) returns (ok: bool, value: nat)
    ensures ok <==> IsUint32(s)
    ensures ok ==> value == DecimalValue(s)
  {
    value := 0;
    if |s| == 0 || |s| > MAX_DIGITS {
      return false, 0;
    }
    var i := 0;
    while i < |s|
      invariant i <= |s| && AllDigits(s[..i]) && value == DecimalValue(s[..i]) <= UINT32_MAX
    {
      if !IsDigit(s[i]) {
        return false, 0;
      }
      var digit := DigitValue(s[i]);
      assert s[..i + 1][..i] == s[..i];
      if value > (UINT32_MAX - digit) / 10 {
        if AllDigits(s) {
          PrefixIsSmaller(s, i + 1);
        }
        return false, 0;
      }
      value := value * 10 + digit;
      i := i + 1;
    }
    assert s[..i] == s;
    ok := true;
  }

  function DigitChar(d: nat): (c: char)
    requires d < 10
    ensures IsDigit(c) && DigitValue(c) == d
  {
    '0' + d as char
  }

  function Decimal(n: nat): (s: string)
    ensures AllDigits(s) && |s| >= 1
  {
    if n < 10 then [DigitChar(n)] else Decimal(n / 10) + [DigitChar(n % 10)]
  }

  /** A number written in decimal reads back as itself, and is accepted exactly when it fits 32 bits. */
  lemma {:induction false} DecimalRoundTrip(n: nat)
    ensures DecimalValue(Decimal(n)) == n
    ensures IsUint32(Decimal(n)) <==> n <= UINT32_MAX
  {
    DecimalReads(n);
    if n <= UINT32_MAX {
      DecimalLength(n, MAX_DIGITS);
    }
  }

  lemma {:induction false} DecimalReads(n: nat)
    ensures DecimalValue(Decimal(n)) == n
  {
    if n < 10 {
      assert [DigitChar(n)][..0] == "";
    } else {
      DecimalReads(n / 10);
      var s := Decimal(n / 10);
      assert (s + [DigitChar(n % 10)])[..|s|] == s;
    }
  }

  function Pow10(k: nat): nat {
    if k == 0 then 1 else 10 * Pow10(k - 1)
  }

  lemma {:induction false} DecimalLength(n: nat, k: nat)
    requires 1 <= k && n < Pow10(k)
    ensures |Decimal(n)| <= k
  {
    if n >= 10 {
      assert k > 1;
      DecimalLength(n / 10, k - 1);
    }
  }
}
