/** Base64 (section 4 of RFC 4648): encoding of bytes, forgiving decoding, and the binary-string
    detour the browser helpers take. */
module Base64 {
  import opened JsMap

  type Byte = n: int | 0 <= n < 256

  type Sextet = n: int | 0 <= n < 64

  // ---------- alphabet ----------

  function Symbol(n: Sextet): char {
    if n < 26 then ('A' as int + n) as char
    else if n < 52 then ('a' as int + n - 26) as char
    else if n < 62 then ('0' as int + n - 52) as char
    else if n == 62 then '+' else '/'
  }

  predicate InAlphabet(c: char) {
    'A' <= c <= 'Z' || 'a' <= c <= 'z' || '0' <= c <= '9' || c == '+' || c == '/'
  }

  function SymbolValue(c: char): Sextet
    requires InAlphabet(c)
  {
    if 'A' <= c <= 'Z' then c as int - 'A' as int
    else if 'a' <= c <= 'z' then c as int - 'a' as int + 26
    else if '0' <= c <= '9' then c as int - '0' as int + 52
    else if c == '+' then 62 else 63
  }

  predicate AllInAlphabet(s: string) {
    forall i | 0 <= i < |s| :: InAlphabet(s[i])
  }

  function Symbols(v: seq<Sextet>): string {
    seq(|v|, i requires 0 <= i < |v| => Symbol(v[i]))
  }

  function Values(s: string): seq<Sextet>
    requires AllInAlphabet(s)
  {
    seq(|s|, i requires 0 <= i < |s| => SymbolValue(s[i]))
  }

  // ---------- bytes and sextets ----------

  function First(b0: Byte): Sextet {
    b0 / 4
  }

  function Second(b0: Byte, b1: Byte): Sextet {
    var low: int, high: int := b0 % 4, b1 / 16;
    low * 16 + high
  }

  function Third(b1: Byte, b2: Byte): Sextet {
    var low: int, high: int := b1 % 16, b2 / 64;
    low * 4 + high
  }

  function Fourth(b2: Byte): Sextet {
    b2 % 64
  }

  function Byte0(v0: Sextet, v1: Sextet): Byte {
    var low: int, high: int := v0, v1 / 16;
    low * 4 + high
  }

  function Byte1(v1: Sextet, v2: Sextet): Byte {
    var low: int, high: int := v1 % 16, v2 / 4;
    low * 16 + high
  }

  function Byte2(v2: Sextet, v3: Sextet): Byte {
    var low: int, high: int := v2 % 4, v3;
    low * 64 + high
  }

  /** Cuts bytes into six-bit values; a short last group is filled with zero bits. */
  function Cut(b: seq<Byte>): seq<Sextet> {
    if |b| == 0 then []
    else if |b| == 1 then [First(b[0]), Second(b[0], 0)]
    else if |b| == 2 then [First(b[0]), Second(b[0], b[1]), Third(b[1], 0)]
    else [First(b[0]), Second(b[0], b[1]), Third(b[1], b[2]), Fourth(b[2])] + Cut(b[3..])
  }

  /** Joins six-bit values back; a single left-over value is an error, left-over bits are dropped. */
  function Join(v: seq<Sextet>): Option<seq<Byte>> {
    if |v| == 0 then Some([])
    else if |v| == 1 then None
    else if |v| == 2 then Some([Byte0(v[0], v[1])])
    else if |v| == 3 then Some([Byte0(v[0], v[1]), Byte1(v[1], v[2])])
    else
      var rest := Join(v[4..]);
      if rest.None? then None
      else Some([Byte0(v[0], v[1]), Byte1(v[1], v[2]), Byte2(v[2], v[3])] + rest.value)
  }

  // ---------- text ----------

  function Padding(n: nat): string {
    if n % 3 == 1 then "==" else if n % 3 == 2 then "=" else ""
  }

  function Encode(b: seq<Byte>): string {
    Symbols(Cut(b)) + Padding(|b|)
  }

  function StripSpace(s: string): string {
    if s == "" then ""
    else if s[0] in " \t\n\r" || s[0] == 12 as char then StripSpace(s[1..])
    else [s[0]] + StripSpace(s[1..])
  }

  /** Removes one or two padding characters from text whose length is a multiple of four. */
  function Unpad(s: string): string {
    var n := |s|;
    if n % 4 != 0 || n == 0 || s[n - 1] != '=' then s
    else if s[n - 2] == '=' then s[..n - 2] else s[..n - 1]
  }

  /** Forgiving decoding: None where the decoder throws. */
  function Decode(s: string): Option<seq<Byte>> {
    var t := Unpad(StripSpace(s));
    if AllInAlphabet(t) then Join(Values(t)) else None
  }

  // ---------- round trip ----------

  /** Three bytes come back from the four values they were cut into. */
  lemma {:induction false} GroupBack(b0: Byte, b1: Byte, b2: Byte)
    ensures Byte0(First(b0), Second(b0, b1)) == b0
    ensures Byte1(Second(b0, b1), Third(b1, b2)) == b1
    ensures Byte2(Third(b1, b2), Fourth(b2)) == b2
  {
  }

  lemma {:induction false} JoinCutShort(b: seq<Byte>)
    requires |b| < 3
    ensures Join(Cut(b)) == Some(b)
  {
    if |b| == 2 {
      GroupBack(b[0], b[1], 0);
      assert b == [b[0], b[1]];
    } else if |b| == 1 {
      GroupBack(b[0], 0, 0);
      assert b == [b[0]];
    }
  }

  lemma {:induction false} JoinCut(b: seq<Byte>)
    ensures Join(Cut(b)) == Some(b)
    decreases |b|
  {
    if |b| < 3 {
      JoinCutShort(b);
    } else {
      JoinCut(b[3..]);
      GroupBack(b[0], b[1], b[2]);
      assert Cut(b)[4..] == Cut(b[3..]);
      assert b == [b[0], b[1], b[2]] + b[3..];
    }
  }

  lemma {:induction false} CutLength(b: seq<Byte>)
    ensures (|Cut(b)| + |Padding(|b|)|) % 4 == 0 && (|b| > 0 ==> |Cut(b)| > 0)
    decreases |b|
  {
    if |b| >= 3 {
      CutLength(b[3..]);
      assert Padding(|b|) == Padding(|b[3..]|);
    }
  }

  lemma {:induction false} SymbolRoundTrip(n: Sextet)
    ensures InAlphabet(Symbol(n)) && SymbolValue(Symbol(n)) == n
  {
  }

  lemma {:induction false} ValuesOfSymbols(v: seq<Sextet>)
    ensures AllInAlphabet(Symbols(v)) && Values(Symbols(v)) == v
  {
    forall i | 0 <= i < |v| ensures InAlphabet(Symbols(v)[i]) && SymbolValue(Symbols(v)[i]) == v[i] {
      SymbolRoundTrip(v[i]);
    }
  }

  lemma {:induction false} NothingToStrip(s: string)
    requires forall i | 0 <= i < |s| :: InAlphabet(s[i]) || s[i] == '='
    ensures StripSpace(s) == s
  {
    if s != "" {
      NothingToStrip(s[1..]);
      assert [s[0]] + s[1..] == s;
    }
  }

  lemma {:induction false} UnpadPadded(t: string, padding: string)
    requires AllInAlphabet(t)
    requires padding in {"", "=", "=="} && (|t| + |padding|) % 4 == 0 && (padding == "=" ==> |t| > 0)
    ensures Unpad(t + padding) == t
  {
    var s := t + padding;
    if padding == "" {
      assert s == t;
    } else {
      assert s[..|t|] == t;
    }
  }

  /** Decoding undoes encoding for every byte sequence. */
  lemma {:induction false} DecodeEncode(b: seq<Byte>)
    ensures Decode(Encode(b)) == Some(b)
  {
    JoinCut(b);
    ValuesOfSymbols(Cut(b));
    EncodedUnpads(b);
  }

  lemma {:induction false} EncodedUnpads(b: seq<Byte>)
    ensures Unpad(StripSpace(Encode(b))) == Symbols(Cut(b))
  {
    var t, padding := Symbols(Cut(b)), Padding(|b|);
    ValuesOfSymbols(Cut(b));
    assert forall i | 0 <= i < |t + padding| :: (t + padding)[i] == if i < |t| then t[i] else '=';
    NothingToStrip(t + padding);
    CutLength(b);
    UnpadPadded(t, padding);
  }

  // ---------- binary strings ----------

  function BinaryString(b: seq<Byte>): string {
    seq(|b|, i requires 0 <= i < |b| => b[i] as char)
  }

  predicate IsBinary(s: string) {
    forall i | 0 <= i < |s| :: s[i] < 256 as char
  }

  function Codes(s: string): seq<Byte>
    requires IsBinary(s)
  {
    seq(|s|, i requires 0 <= i < |s| => s[i] as int)
  }

  lemma {:induction false} CodesOfBinary(b: seq<Byte>)
    ensures IsBinary(BinaryString(b)) && Codes(BinaryString(b)) == b
  {
  }

  /** toB64: collects the bytes in a binary string, then encodes it. */
  method ToB64(bytes: seq<Byte>) returns (text: string)
    ensures text == Encode(bytes)
  {
    var s := "";
    for i := 0 to |bytes|
      invariant s == BinaryString(bytes[..i])
    {
      s := s + [bytes[i] as char];
    }
    assert bytes[..|bytes|] == bytes;
    CodesOfBinary(bytes);
    text := Encode(Codes(s));
  }

  /** fromB64: decodes to a binary string, then reads the bytes off; None where decoding throws. */
  method FromB64(text: string) returns (bytes: Option<seq<Byte>>)
    ensures bytes == Decode(text)
  {
    var decoded := Decode(text);
    if decoded.None? { return None; }
    var s := BinaryString(decoded.value);
    CodesOfBinary(decoded.value);
    var out: seq<Byte> := [];
    for i := 0 to |s|
      invariant out == Codes(s)[..i]
    {
      out := out + [s[i] as int];
    }
    assert Codes(s)[..|s|] == Codes(s);
    bytes := Some(out);
  }

  // ---------- the encoding of the standard ----------

  /** The alphabet: the capital letters, the small letters, the digits, plus and slash (table 1 of RFC 4648);
      and how four values hold the 24 bits of three bytes. */
  lemma {:induction false} StandardGroups(b0: Byte, b1: Byte, b2: Byte, n: Sextet)
    ensures First(b0) * 262144 + Second(b0, b1) * 4096 + Third(b1, b2) * 64 + Fourth(b2) == b0 * 65536 + b1 * 256 + b2
    ensures Symbol(0) == 'A' && Symbol(26) == 'a' && Symbol(52) == '0' && Symbol(62) == '+' && Symbol(63) == '/'
    ensures n + 1 < 62 && n + 1 !in {26, 52} ==> Symbol(n + 1) as int == Symbol(n) as int + 1
  {
  }

  /** Three bytes at a time, each on its own. */
  lemma {:induction false} EncodeGroup(b: seq<Byte>)
    requires |b| >= 3
    ensures Encode(b)
         == [Symbol(First(b[0])), Symbol(Second(b[0], b[1])), Symbol(Third(b[1], b[2])), Symbol(Fourth(b[2]))]
            + Encode(b[3..])
  {
    var group: seq<Sextet> := [First(b[0]), Second(b[0], b[1]), Third(b[1], b[2]), Fourth(b[2])];
    assert Cut(b) == group + Cut(b[3..]);
    assert Symbols(group + Cut(b[3..])) == Symbols(group) + Symbols(Cut(b[3..]));
    assert Padding(|b|) == Padding(|b[3..]|);
  }

  /** The first test vectors of section 10 of RFC 4648: the texts "", "f", "fo" and "foo". */
  lemma {:induction false} TestVectors()
    ensures Encode([]) == "" && Encode([102]) == "Zg==" && Encode([102, 111]) == "Zm8="
    ensures Encode([102, 111, 111]) == "Zm9v"
  {
    assert Cut([102]) == [25, 32] && Cut([102, 111]) == [25, 38, 60];
    assert Symbols([25, 32]) == "Zg" && Symbols([25, 38, 60]) == "Zm8";
    assert Cut([102, 111, 111]) == [25, 38, 61, 47] + Cut([102, 111, 111][3..]);
    assert Symbols([25, 38, 61, 47]) == "Zm9v";
  }

  lemma {:induction false} JoinsUnlessOneLeft(v: seq<Sextet>)
    ensures Join(v).Some? <==> |v| % 4 != 1
    decreases |v|
  {
    if |v| >= 4 { JoinsUnlessOneLeft(v[4..]); }
  }

  lemma {:induction false} JoinedLength(v: seq<Sextet>)
    requires Join(v).Some?
    ensures |Join(v).value| == |v| * 3 / 4
    decreases |v|
  {
    if |v| >= 4 {
      JoinedLength(v[4..]);
      ThreeMore(|v| - 4);
    }
  }

  lemma {:induction false} ThreeMore(n: nat)
    ensures (n + 4) * 3 / 4 == n * 3 / 4 + 3
  {
    assert (n + 4) * 3 == n * 3 + 12;
  }

  /** Decoding fails exactly where, white space and padding removed, a character is not of the alphabet or a
      single one is left over; otherwise every four characters give three bytes. */
  lemma {:induction false} DecodeExact(s: string)
    ensures var t := Unpad(StripSpace(s));
            && (Decode(s).None? <==> !AllInAlphabet(t) || |t| % 4 == 1)
            && (Decode(s).Some? ==> |Decode(s).value| == |t| * 3 / 4)
  {
    var t := Unpad(StripSpace(s));
    if AllInAlphabet(t) {
      JoinsUnlessOneLeft(Values(t));
      if Decode(s).Some? { JoinedLength(Values(t)); }
    }
  }
}
