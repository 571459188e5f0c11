/** The escaping of names inside index paths (apdiff-viewer/src/tc.rs:12-48). */
module IndexPathCodec {
  import opened Prelude

  type Byte = b: int | 0 <= b < 256

  const TILDE: Byte := '~' as int
  const DOT: Byte := '.' as int

  predicate Plain(b: Byte) {
    || '0' as int <= b <= '9' as int || 'a' as int <= b <= 'z' as int || 'A' as int <= b <= 'Z' as int
    || b == '_' as int || b == '-' as int
  }

  /** Lower-case. */
  function HexDigit(n: int): Byte
    requires 0 <= n < 16
  {
    if n < 10 then '0' as int + n else 'a' as int + n - 10
  }

  /** Either case. */
  function HexValue(b: Byte): Option<int> {
    if '0' as int <= b <= '9' as int then Some(b - '0' as int)
    else if 'a' as int <= b <= 'f' as int then Some(b - 'a' as int + 10)
    else if 'A' as int <= b <= 'F' as int then Some(b - 'A' as int + 10)
    else None
  }

  /** Two characters read as a number in base 16; the first may be a plus sign. */
  function ReadHex(first: Byte, second: Byte): (r: Option<Byte>) {
    match (HexValue(first), HexValue(second))
    case (Some(high), Some(low)) => Some(16 * high + low)
    case (None, Some(low)) => if first == '+' as int then Some(low) else None
    case _ => None
  }

  function EncodeByte(b: Byte): (r: seq<Byte>)
    ensures r != []
  {
    if Plain(b) then [b] else [TILDE, HexDigit(b / 16), HexDigit(b % 16)]
  }

  function Encode(s: seq<Byte>): seq<Byte> {
    if s == [] then [] else EncodeByte(s[0]) + Encode(s[1..])
  }

  /** What one step of the decoder emits and how much it reads. */
  function DecodeStep(t: seq<Byte>): (r: (Byte, nat))
    requires t != []
    ensures 1 <= r.1 <= |t|
  {
    if t[0] == TILDE && 2 < |t| && ReadHex(t[1], t[2]).Some? then (ReadHex(t[1], t[2]).value, 3) else (t[0], 1)
  }

  function Decode(t: seq<Byte>): seq<Byte>
    decreases |t|
  {
    if t == [] then [] else [DecodeStep(t).0] + Decode(t[DecodeStep(t).1..])
  }

  method EncodeIndexComponent(s: seq<Byte>) returns (out: seq<Byte>)
    ensures out == Encode(s)
    ensures Decode(out) == s
  {
    out := [];
    for i := 0 to |s|
      invariant out + Encode(s[i..]) == Encode(s)
    {
      var b := s[i];
      Assoc(out, EncodeByte(b), Encode(s[i + 1..]));
      assert s[i..][1..] == s[i + 1..];
      if Plain(b) {
        out := out + [b];
      } else {
        out := out + [TILDE, HexDigit(b / 16), HexDigit(b % 16)];
      }
    }
    RoundTrip(s);
  }

  method DecodeIndexComponent(s: seq<Byte>) returns (out: seq<Byte>)
    ensures out == Decode(s)
  {
    out := [];
    var i := 0;
    while i < |s|
      invariant i <= |s| && out + Decode(s[i..]) == Decode(s)
    {
      ghost var rest := s[i..];
      Assoc(out, [DecodeStep(rest).0], Decode(rest[DecodeStep(rest).1..]));
      if s[i] == TILDE && i + 2 < |s| {
        match ReadHex(s[i + 1], s[i + 2])
        case Some(byte) =>
          assert rest[3..] == s[i + 3..];
          out := out + [byte];
          i := i + 3;
          continue;
        case None =>
      }
      assert rest[1..] == s[i + 1..];
      out := out + [s[i]];
      i := i + 1;
    }
  }

  lemma HexReadsBack(b: Byte)
    ensures ReadHex(HexDigit(b / 16), HexDigit(b % 16)) == Some(b)
  {
    assert b == 16 * (b / 16) + b % 16;
    assert forall n :: 0 <= n < 16 ==> HexValue(HexDigit(n)) == Some(n);
  }

  lemma {:induction false} RoundTrip(s: seq<Byte>)
    ensures Decode(Encode(s)) == s
  {
    if s != [] {
      var code, rest := EncodeByte(s[0]), Encode(s[1..]);
      HexReadsBack(s[0]);
      assert DecodeStep(code + rest) == (s[0], |code|);
      assert (code + rest)[|code|..] == rest;
      RoundTrip(s[1..]);
    }
  }

  predicate Safe(b: Byte) { Plain(b) || b == TILDE }

  lemma {:induction false} EncodedIsSafe(s: seq<Byte>)
    ensures forall i :: 0 <= i < |Encode(s)| ==> Safe(Encode(s)[i])
  {
    if s != [] { EncodedIsSafe(s[1..]); }
  }

  lemma EncodeInjective(s: seq<Byte>, t: seq<Byte>)
    requires Encode(s) == Encode(t)
    ensures s == t
  {
    RoundTrip(s);
    RoundTrip(t);
  }

  /** Text that the encoder can have written: tildes only before the two lower-case digits of a byte
      that needs escaping. */
  predicate Canonical(t: seq<Byte>)
    decreases |t|
  {
    t == [] ||
    var (b, n) := DecodeStep(t);
    t[..n] == EncodeByte(b) && Canonical(t[n..])
  }

  /** Re-encoding what was decoded gives the same text exactly for text that an encoder wrote. */
  lemma {:induction false} EncodedTextIsCanonical(t: seq<Byte>)
    ensures Encode(Decode(t)) == t <==> Canonical(t)
    ensures Canonical(t) <==> exists s :: Encode(s) == t
    decreases |t|
  {
    if t != [] {
      var (b, n) := DecodeStep(t);
      EncodedTextIsCanonical(t[n..]);
      assert t == t[..n] + t[n..];
      if Encode(Decode(t)) == t {
        StepOfEncoded(Decode(t));
        assert EncodeByte(b) == t[..n];
        assert Encode(Decode(t[n..])) == t[n..];
      }
    } else {
      assert Encode([]) == t;
    }
    if Canonical(t) { assert Encode(Decode(t)) == t; }
    forall s | Encode(s) == t ensures Encode(Decode(t)) == t { RoundTrip(s); }
  }

  lemma StepOfEncoded(s: seq<Byte>)
    requires s != []
    ensures DecodeStep(Encode(s)) == (s[0], |EncodeByte(s[0])|)
    ensures Encode(s)[..|EncodeByte(s[0])|] == EncodeByte(s[0])
    ensures Encode(s)[|EncodeByte(s[0])|..] == Encode(s[1..])
  {
    HexReadsBack(s[0]);
  }

  function IndexPath(prefix: seq<Byte>, world: seq<Byte>, version: seq<Byte>): seq<Byte> {
    prefix + [DOT] + Encode(world) + [DOT] + Encode(version)
  }

  lemma {:induction false} SplitAtDot(a: seq<Byte>, b: seq<Byte>, c: seq<Byte>, d: seq<Byte>)
    requires a + [DOT] + b == c + [DOT] + d && DOT !in a && DOT !in c
    ensures a == c && b == d
  {
    var all, same := a + [DOT] + b, c + [DOT] + d;
    assert all[0] == (if a == [] then DOT else a[0]);
    assert same[0] == (if c == [] then DOT else c[0]);
    assert all[1..] == if a == [] then b else a[1..] + [DOT] + b;
    assert same[1..] == if c == [] then d else c[1..] + [DOT] + d;
    if a != [] {
      SplitAtDot(a[1..], b, c[1..], d);
    }
  }

  /** Two releases never share a path. */
  lemma IndexPathInjective(prefix: seq<Byte>, world: seq<Byte>, version: seq<Byte>, world': seq<Byte>,
                           version': seq<Byte>)
    ensures IndexPath(prefix, world, version) == IndexPath(prefix, world', version') <==>
      world == world' && version == version'
  {
    if IndexPath(prefix, world, version) == IndexPath(prefix, world', version') {
      var a, b, c, d := Encode(world), Encode(version), Encode(world'), Encode(version');
      var head := prefix + [DOT];
      assert IndexPath(prefix, world, version) == head + (a + [DOT] + b);
      assert IndexPath(prefix, world', version') == head + (c + [DOT] + d);
      assert (head + (a + [DOT] + b))[|head|..] == a + [DOT] + b;
      assert (head + (c + [DOT] + d))[|head|..] == c + [DOT] + d;
      EncodedIsSafe(world);
      EncodedIsSafe(world');
      SplitAtDot(a, b, c, d);
      EncodeInjective(world, world');
      EncodeInjective(version, version');
    }
  }
}
