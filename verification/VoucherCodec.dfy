/** The payment voucher header: base64 of a JSON object whose integers are decimal strings. */
module VoucherCodec {
  import opened JsMap
  import opened Base64
  import opened Json
  import Decimal

  datatype Voucher = Voucher(
    channelId: int, cumulative: int, sequence: int, r8x: int, r8y: int, s: int, ax: int, ay: int)

  /** What the platform provides: text and byte conversions, the base64 reader of Buffer.from, and
      the conversions of JSON values that are not the ones a serialized voucher holds. */
  datatype Platform = Platform(
    utf8Encode: string -> seq<Byte>,
    utf8Decode: seq<Byte> -> string,
    base64Decode: string -> seq<Byte>,
    toBigInt: Value -> Option<int>,
    toNumber: Value -> Option<int>)

  ghost predicate Correct(p: Platform) {
    && (forall t :: p.utf8Decode(p.utf8Encode(t)) == t && |p.utf8Encode(t)| >= |t|)
    && (forall b :: p.base64Decode(Encode(b)) == b)
  }

  const MAX_SAFE := 9_007_199_254_740_991

  predicate IsSafe(n: int) {
    -MAX_SAFE <= n <= MAX_SAFE
  }

  // ---------- serializing ----------

  function Decimals(n: int): Value {
    Str(Decimal.ToString(n))
  }

  const FIELDS := ["channelId", "cumulative", "seq", "R8x", "R8y", "S", "Ax", "Ay"]

  /** The values of the eight fields, in the order of their names. */
  function WireValues(v: Voucher): (r: seq<Value>)
    ensures |r| == |FIELDS| == 8
  {
    [Decimals(v.channelId), Decimals(v.cumulative), Num(Decimal.ToString(v.sequence)),
     Decimals(v.r8x), Decimals(v.r8y), Decimals(v.s), Decimals(v.ax), Decimals(v.ay)]
  }

  function Wire(v: Voucher): Value {
    Obj(seq(|FIELDS|, i requires 0 <= i < |FIELDS| => (FIELDS[i], WireValues(v)[i])))
  }

  function SerializeVoucherHeader(p: Platform, v: Voucher): string {
    Encode(p.utf8Encode(Stringify(Wire(v))))
  }

  // ---------- parsing ----------

  function BigIntOf(p: Platform, x: Value): Option<int> {
    if x.Str? && Decimal.Parse(x.s).Some? then Decimal.Parse(x.s) else p.toBigInt(x)
  }

  function NumberOf(p: Platform, x: Value): Option<int> {
    if x.Num? && Decimal.Parse(x.literal).Some? && IsSafe(Decimal.Parse(x.literal).value)
    then Decimal.Parse(x.literal) else p.toNumber(x)
  }

  predicate HasAllFields(w: Value) {
    w.Obj? && forall i | 0 <= i < |FIELDS| :: Has(w.fields, FIELDS[i])
  }

  function FieldOf(w: Value, i: nat): Value
    requires HasAllFields(w) && i < 8
  {
    Get(w.fields, FIELDS[i])
  }

  function ReadVoucher(p: Platform, w: Value): Option<Voucher>
    requires HasAllFields(w)
  {
    var c, u, n := BigIntOf(p, FieldOf(w, 0)), BigIntOf(p, FieldOf(w, 1)), NumberOf(p, FieldOf(w, 2));
    var x, y, s := BigIntOf(p, FieldOf(w, 3)), BigIntOf(p, FieldOf(w, 4)), BigIntOf(p, FieldOf(w, 5));
    var ax, ay := BigIntOf(p, FieldOf(w, 6)), BigIntOf(p, FieldOf(w, 7));
    if c.Some? && u.Some? && n.Some? && x.Some? && y.Some? && s.Some? && ax.Some? && ay.Some?
    then Some(Voucher(c.value, u.value, n.value, x.value, y.value, s.value, ax.value, ay.value)) else None
  }

  function ParseVoucherHeader(p: Platform, header: Option<string>): Option<Voucher> {
    if header.None? || header.value == "" then None
    else
      var w := Parse(p.utf8Decode(p.base64Decode(header.value)));
      if w.None? || !HasAllFields(w.value) then None else ReadVoucher(p, w.value)
  }

  // ---------- round trip ----------

  /** Length and characters tell the eight names apart. */
  lemma {:induction false} NamesDistinct()
    ensures forall i, j | 0 <= i < j < |FIELDS| :: FIELDS[i] != FIELDS[j]
  {
    var f := FIELDS;
    assert |f[0]| == 9 && |f[1]| == 10 && |f[2]| == 3 && |f[3]| == 3 && |f[4]| == 3;
    assert |f[5]| == 1 && |f[6]| == 2 && |f[7]| == 2;
    assert f[2][0] == 's' && f[3][0] == 'R' && f[4][0] == 'R';
    assert f[3][2] == 'x' && f[4][2] == 'y' && f[6][1] == 'x' && f[7][1] == 'y';
  }

  lemma {:induction false} WireWellFormed(v: Voucher)
    ensures WellFormed(Wire(v))
  {
    NamesDistinct();
    IntegerIsNumber(v.sequence);
    var w := WireValues(v);
    forall i | 0 <= i < |w| ensures WellFormed(w[i]) {
      assert w[i].Str? || w[i] == Num(Decimal.ToString(v.sequence));
    }
  }

  lemma {:induction false} FieldAt(v: Voucher, i: nat)
    requires i < |FIELDS|
    ensures Has(Wire(v).fields, FIELDS[i]) && Get(Wire(v).fields, FIELDS[i]) == WireValues(v)[i]
  {
    NamesDistinct();
    IndexAt(Wire(v).fields, i);
  }

  lemma {:induction false} WireFields(v: Voucher)
    ensures HasAllFields(Wire(v))
    ensures forall i: nat | i < 8 :: FieldOf(Wire(v), i) == WireValues(v)[i]
  {
    forall i: nat | i < 8 ensures Has(Wire(v).fields, FIELDS[i]) && Get(Wire(v).fields, FIELDS[i]) == WireValues(v)[i] {
      FieldAt(v, i);
    }
  }

  lemma {:induction false} DecimalsRead(p: Platform, n: int)
    ensures BigIntOf(p, Decimals(n)) == Some(n)
    ensures IsSafe(n) ==> NumberOf(p, Num(Decimal.ToString(n))) == Some(n)
  {
    Decimal.ParseToString(n);
  }

  lemma {:induction false} WireReads(p: Platform, v: Voucher)
    requires IsSafe(v.sequence)
    ensures HasAllFields(Wire(v)) && ReadVoucher(p, Wire(v)) == Some(v)
  {
    WireFields(v);
    DecimalsRead(p, v.channelId);
    DecimalsRead(p, v.cumulative);
    DecimalsRead(p, v.sequence);
    DecimalsRead(p, v.r8x);
    DecimalsRead(p, v.r8y);
    DecimalsRead(p, v.s);
    DecimalsRead(p, v.ax);
    DecimalsRead(p, v.ay);
  }

  lemma {:induction false} HeaderNotEmpty(p: Platform, v: Voucher)
    requires Correct(p)
    ensures SerializeVoucherHeader(p, v) != ""
  {
    var text := Stringify(Wire(v));
    assert text[0] == '{';
    assert |p.utf8Encode(text)| >= 1;
  }

  /** Parsing a serialized voucher returns it, for all integers and every safe sequence number. */
  lemma {:induction false} ParseSerialize(p: Platform, v: Voucher)
    requires Correct(p) && -9_007_199_254_740_991 <= v.sequence <= 9_007_199_254_740_991
    ensures ParseVoucherHeader(p, Some(SerializeVoucherHeader(p, v))) == Some(v)
  {
    WireWellFormed(v);
    ParseStringify(Wire(v));
    WireReads(p, v);
    HeaderNotEmpty(p, v);
    var text := Stringify(Wire(v));
    assert p.base64Decode(Encode(p.utf8Encode(text))) == p.utf8Encode(text);
    assert p.utf8Decode(p.utf8Encode(text)) == text;
  }

  /** Different vouchers have different headers. */
  lemma {:induction false} SerializeInjective(p: Platform, v: Voucher, w: Voucher)
    requires Correct(p) && IsSafe(v.sequence) && IsSafe(w.sequence)
    requires SerializeVoucherHeader(p, v) == SerializeVoucherHeader(p, w)
    ensures v == w
  {
    ParseSerialize(p, v);
    ParseSerialize(p, w);
  }

  // ---------- the text of a header ----------

  lemma {:induction false} NamesPlain(i: nat)
    requires i < 8
    ensures forall j | 0 <= j < |FIELDS[i]| :: IsPlain(FIELDS[i][j])
  {
  }

  lemma {:induction false} DecimalsText(n: int)
    ensures Stringify(Decimals(n)) == "\"" + Decimal.ToString(n) + "\""
  {
    Decimal.DigitsValue(if n < 0 then -n else n);
    PlainStays(Decimal.ToString(n));
  }

  /** The text of the members from position i on. */
  ghost function Tail(v: Voucher, i: nat): string
    requires i < 8
  {
    StringifyFields(Wire(v), i)
  }

  function Comma(first: string, rest: string): string {
    first + ("," + rest)
  }

  lemma {:induction false} TailText(v: Voucher, i: nat)
    requires i < 8
    ensures var first := Entry(FIELDS[i], Stringify(WireValues(v)[i]));
            Tail(v, i) == if i < 7 then Comma(first, Tail(v, i + 1)) else first
  {
    NamesPlain(i);
    EntryText(Wire(v), i);
    assert Wire(v).fields[i] == (FIELDS[i], WireValues(v)[i]);
  }

  function Quoted(n: int): string {
    "\"" + Decimal.ToString(n) + "\""
  }

  ghost function LastFour(v: Voucher): string {
    Comma(Entry("R8y", Quoted(v.r8y)),
      Comma(Entry("S", Quoted(v.s)), Comma(Entry("Ax", Quoted(v.ax)), Entry("Ay", Quoted(v.ay)))))
  }

  lemma {:induction false} SecondHalf(v: Voucher)
    ensures Tail(v, 4) == LastFour(v)
  {
    TailText(v, 4);
    TailText(v, 5);
    TailText(v, 6);
    TailText(v, 7);
    DecimalsText(v.r8y);
    DecimalsText(v.s);
    DecimalsText(v.ax);
    DecimalsText(v.ay);
  }

  lemma {:induction false} NextTwo(v: Voucher)
    ensures Tail(v, 2)
         == Comma(Entry("seq", Decimal.ToString(v.sequence)), Comma(Entry("R8x", Quoted(v.r8x)), Tail(v, 4)))
  {
    TailText(v, 2);
    TailText(v, 3);
    DecimalsText(v.r8x);
  }

  lemma {:induction false} FirstTwo(v: Voucher)
    ensures Tail(v, 0)
         == Comma(Entry("channelId", Quoted(v.channelId)), Comma(Entry("cumulative", Quoted(v.cumulative)), Tail(v, 2)))
  {
    TailText(v, 0);
    TailText(v, 1);
    DecimalsText(v.channelId);
    DecimalsText(v.cumulative);
  }

  /** The header is base64 of the object with these eight members, integers in quotes but for the sequence
      number. */
  lemma {:induction false} HeaderText(p: Platform, v: Voucher)
    ensures SerializeVoucherHeader(p, v)
         == Encode(p.utf8Encode("{"
              + Comma(Entry("channelId", Quoted(v.channelId)),
                  Comma(Entry("cumulative", Quoted(v.cumulative)),
                    Comma(Entry("seq", Decimal.ToString(v.sequence)),
                      Comma(Entry("R8x", Quoted(v.r8x)),
                        Comma(Entry("R8y", Quoted(v.r8y)),
                          Comma(Entry("S", Quoted(v.s)),
                            Comma(Entry("Ax", Quoted(v.ax)), Entry("Ay", Quoted(v.ay))))))))) + "}"))
  {
    FirstTwo(v);
    NextTwo(v);
    SecondHalf(v);
  }

  /** What a header that is accepted says: every member is there under its own name and reads as the
      voucher's. */
  lemma {:induction false} ParsedFields(p: Platform, header: Option<string>)
    requires ParseVoucherHeader(p, header).Some?
    ensures header.Some? && header.value != ""
    ensures var w, v := Parse(p.utf8Decode(p.base64Decode(header.value))), ParseVoucherHeader(p, header).value;
            && w.Some? && w.value.Obj?
            && Reads(p, w.value, "channelId", v.channelId) && Reads(p, w.value, "cumulative", v.cumulative)
            && Reads(p, w.value, "R8x", v.r8x) && Reads(p, w.value, "R8y", v.r8y) && Reads(p, w.value, "S", v.s)
            && Reads(p, w.value, "Ax", v.ax) && Reads(p, w.value, "Ay", v.ay)
            && Has(w.value.fields, "seq") && NumberOf(p, Get(w.value.fields, "seq")) == Some(v.sequence)
  {
    assert forall i | 0 <= i < 8 :: FIELDS[i] == ["channelId", "cumulative", "seq", "R8x", "R8y", "S", "Ax", "Ay"][i];
  }

  ghost predicate Reads(p: Platform, w: Value, name: string, n: int)
    requires w.Obj?
  {
    Has(w.fields, name) && BigIntOf(p, Get(w.fields, name)) == Some(n)
  }
}
