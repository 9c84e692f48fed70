/** Canonical unsigned LEB128 of 32-bit values, and 32-bit little-endian fields, over bytes. */
module Varints {
  import opened Outcomes

  type Byte = x: nat | x < 256

  const LIMIT: nat := 0x1_0000_0000

  datatype CodecError =
    | Truncated | Overflow | NonCanonical | InvalidOrder
    | InvalidValue | LimitExceeded | TrailingBytes | BadMagic

  // ----- encoding -----

  function EncodeVar(v: nat): (r: seq<Byte>)
    ensures |r| > 0
  {
    if v < 128 then [v] else [v % 128 + 128] + EncodeVar(v / 128)
  }

  /** At most five groups for a 32-bit value. */
  lemma EncodedLength(v: nat)
    requires v < LIMIT
    ensures |EncodeVar(v)| == if v < 0x80 then 1 else if v < 0x4000 then 2 else if v < 0x20_0000 then 3
              else if v < 0x1000_0000 then 4 else 5
  {
    var a := v / 128;
    var b := a / 128;
    var c := b / 128;
    var d := c / 128;
    assert |EncodeVar(v)| == if v < 128 then 1 else 1 + |EncodeVar(a)|;
    assert |EncodeVar(a)| == if a < 128 then 1 else 1 + |EncodeVar(b)|;
    assert |EncodeVar(b)| == if b < 128 then 1 else 1 + |EncodeVar(c)|;
    assert |EncodeVar(c)| == if c < 128 then 1 else 1 + |EncodeVar(d)|;
    assert d < 128;
    assert |EncodeVar(d)| == 1;
  }

  function BitLength(v: nat): nat {
    if v == 0 then 0 else 1 + BitLength(v / 2)
  }

  /** The size in bytes, computed from the position of the highest bit. */
  function VarLength(v: nat): nat {
    if v == 0 then 1 else (BitLength(v) + 6) / 7
  }

  lemma SevenBits(v: nat)
    requires v >= 128
    ensures BitLength(v) == 7 + BitLength(v / 128)
  {
    var a, b, c := v / 2, v / 2 / 2, v / 2 / 2 / 2;
    var d, e, f := c / 2, c / 2 / 2, c / 2 / 2 / 2;
    assert v / 128 == f / 2;
    assert BitLength(v) == 1 + BitLength(a) && BitLength(a) == 1 + BitLength(b) && BitLength(b) == 1 + BitLength(c);
    assert BitLength(c) == 1 + BitLength(d) && BitLength(d) == 1 + BitLength(e) && BitLength(e) == 1 + BitLength(f);
    assert BitLength(f) == 1 + BitLength(f / 2);
  }

  lemma FewBits(v: nat)
    requires 0 < v < 128
    ensures 1 <= BitLength(v) <= 7
  {
    var a, b, c := v / 2, v / 2 / 2, v / 2 / 2 / 2;
    var d, e, f := c / 2, c / 2 / 2, c / 2 / 2 / 2;
    assert f < 2;
    assert BitLength(f) <= 1 && BitLength(e) <= 2 && BitLength(d) <= 3 && BitLength(c) <= 4 && BitLength(b) <= 5 &&
             BitLength(a) <= 6;
  }

  /** The computed size is the encoded size. */
  lemma {:induction false} VarLengthIsLength(v: nat)
    ensures VarLength(v) == |EncodeVar(v)|
    decreases v
  {
    if 0 < v < 128 {
      FewBits(v);
    } else if v >= 128 {
      VarLengthIsLength(v / 128);
      SevenBits(v);
    }
  }

  /** 128 to the power of a group number. */
  function Weight(group: nat): (w: nat)
    ensures w > 0
  {
    if group == 0 then 1 else 128 * Weight(group - 1)
  }

  /** Group `k` holds bits 7k to 7k + 6, and its high bit says whether another group follows. */
  lemma {:induction false} VarGroup(v: nat, k: nat)
    requires k < |EncodeVar(v)|
    ensures EncodeVar(v)[k] == (v / Weight(k)) % 128 + if k + 1 < |EncodeVar(v)| then 128 else 0
    decreases k
  {
    if k > 0 {
      VarGroup(v / 128, k - 1);
      DivTwice(v, 128, Weight(k - 1));
    }
  }

  lemma {:induction false} EncodedAtMost(v: nat, k: nat)
    requires k > 0 && v < Weight(k)
    ensures |EncodeVar(v)| <= k
    decreases k
  {
    if v >= 128 && k > 1 {
      EncodedAtMost(v / 128, k - 1);
    }
  }

  /** A positive value is never shorter than its encoding. */
  lemma {:induction false} EncodedShort(v: nat)
    requires v > 0
    ensures |EncodeVar(v)| <= v
    decreases v
  {
    if v >= 128 {
      EncodedShort(v / 128);
    }
  }

  /** A value below 128 to the `k` takes at most `k` bytes. */
  lemma LengthAtMost(v: nat, k: nat)
    requires k > 0 && v < Weight(k)
    ensures VarLength(v) <= k
  {
    VarLengthIsLength(v);
    EncodedAtMost(v, k);
  }

  /** Five groups hold 35 bits and ten hold 70. */
  lemma FiveAndTen()
    ensures Weight(5) == 0x8_0000_0000 && Weight(10) == 0x40_0000_0000_0000_0000
  {
    assert Weight(1) == 128 && Weight(2) == 16384 && Weight(3) == 128 * Weight(2);
    assert Weight(6) == 128 * Weight(5) && Weight(7) == 128 * Weight(6);
    assert Weight(8) == 128 * Weight(7) && Weight(9) == 128 * Weight(8);
  }

  // ----- decoding -----

  /** The value from `o` on when `group` groups have been read, and the offset after it. */
  function Groups(bytes: seq<Byte>, o: nat, group: nat): Result<(nat, nat), CodecError>
    decreases |bytes| - o
  {
    if o >= |bytes| then Err(Truncated)
    else if group >= 5 || (group == 4 && bytes[o] > 15) then Err(Overflow)
    else if bytes[o] < 128 then if group != 0 && bytes[o] == 0 then Err(NonCanonical) else Ok((bytes[o], o + 1))
    else
      var rest := Groups(bytes, o + 1, group + 1);
      if rest.Err? then rest else Ok((bytes[o] - 128 + 128 * rest.value.0, rest.value.1))
  }

  function ReadVar(bytes: seq<Byte>, o: nat): Result<(nat, nat), CodecError> {
    Groups(bytes, o, 0)
  }

  /** The largest value with `left` more groups, the last of four bits. */
  function Room(group: nat): nat {
    if group == 0 then 0x1_0000_0000
    else if group == 1 then 0x200_0000
    else if group == 2 then 0x4_0000
    else if group == 3 then 0x800
    else if group == 4 then 16
    else 0
  }

  lemma RoomShrinks(group: nat)
    requires group < 4
    ensures Room(group) == 128 * Room(group + 1)
  {
  }

  /** What is written is read back, wherever it stands. */
  lemma {:induction false} GroupsReadBack(before: seq<Byte>, v: nat, after: seq<Byte>, group: nat)
    requires group < 5 && v < Room(group) && (group > 0 ==> v > 0)
    ensures Groups(before + EncodeVar(v) + after, |before|, group) == Ok((v, |before| + |EncodeVar(v)|))
    decreases v
  {
    var bytes := before + EncodeVar(v) + after;
    assert bytes[|before|] == EncodeVar(v)[0];
    if v >= 128 {
      var low: Byte := v % 128 + 128;
      RoomShrinks(group);
      GroupsReadBack(before + [low], v / 128, after, group + 1);
      assert bytes == (before + [low]) + EncodeVar(v / 128) + after;
    }
  }

  /** What is read is the canonical form of the value read. */
  lemma {:induction false} GroupsAreCanonical(bytes: seq<Byte>, o: nat, group: nat)
    requires group < 5 && Groups(bytes, o, group).Ok?
    ensures var (v, end) := Groups(bytes, o, group).value;
            && v < Room(group) && (group > 0 ==> v > 0) && o < end <= |bytes| && bytes[o..end] == EncodeVar(v)
    decreases |bytes| - o
  {
    var (v, end) := Groups(bytes, o, group).value;
    if bytes[o] < 128 {
      assert bytes[o..end] == [bytes[o]];
    } else {
      GroupsAreCanonical(bytes, o + 1, group + 1);
      var (w, _) := Groups(bytes, o + 1, group + 1).value;
      RoomShrinks(group);
      Carried(v, bytes[o] - 128, w);
      assert bytes[o..end] == [bytes[o]] + bytes[o + 1..end];
    }
  }

  lemma Carried(v: nat, low: nat, rest: nat)
    requires v == low + 128 * rest && low < 128
    ensures v / 128 == rest && v % 128 == low
  {
  }

  lemma ReadsBack(before: seq<Byte>, v: nat, after: seq<Byte>)
    requires v < LIMIT
    ensures ReadVar(before + EncodeVar(v) + after, |before|) == Ok((v, |before| + |EncodeVar(v)|))
  {
    GroupsReadBack(before, v, after, 0);
  }

  lemma ReadIsCanonical(bytes: seq<Byte>, o: nat)
    requires ReadVar(bytes, o).Ok?
    ensures var (v, end) := ReadVar(bytes, o).value;
            v < LIMIT && o < end <= |bytes| && bytes[o..end] == EncodeVar(v)
  {
    GroupsAreCanonical(bytes, o, 0);
  }

  // ----- little-endian fields -----

  /** 256 to the power of a field's width. */
  function Span256(width: nat): (span: nat)
    ensures span > 0
  {
    if width == 0 then 1 else 256 * Span256(width - 1)
  }

  function EncodeField(v: nat, width: nat): (r: seq<Byte>)
    ensures |r| == width
    decreases width
  {
    if width == 0 then [] else [v % 256] + EncodeField(v / 256, width - 1)
  }

  function FieldValue(b: seq<Byte>): nat {
    if b == [] then 0 else b[0] + 256 * FieldValue(b[1..])
  }

  lemma {:induction false} FieldReadsBack(v: nat, width: nat)
    requires v < Span256(width)
    ensures FieldValue(EncodeField(v, width)) == v
    decreases width
  {
    if width > 0 {
      FieldReadsBack(v / 256, width - 1);
      assert EncodeField(v, width)[1..] == EncodeField(v / 256, width - 1);
    }
  }

  lemma {:induction false} FieldIsCanonical(b: seq<Byte>)
    ensures FieldValue(b) < Span256(|b|) && EncodeField(FieldValue(b), |b|) == b
    decreases |b|
  {
    if b != [] {
      FieldIsCanonical(b[1..]);
      var low: int, rest := b[0], FieldValue(b[1..]);
      assert (low + 256 * rest) % 256 == low && (low + 256 * rest) / 256 == rest;
      assert b == [b[0]] + b[1..];
    }
  }

  /** Byte `j` of a field holds its bits 8j to 8j + 7: the least significant byte comes first. */
  lemma {:induction false} FieldByte(v: nat, width: nat, j: nat)
    requires j < width
    ensures EncodeField(v, width)[j] == (v / Span256(j)) % 256
    decreases j
  {
    if j > 0 {
      FieldByte(v / 256, width - 1, j - 1);
      DivTwice(v, 256, Span256(j - 1));
    }
  }

  lemma Distribute(a: nat, b: nat, q: nat, t: nat)
    ensures a * (b * q + t) == (a * b) * q + a * t && a * t >= 0
  {
  }

  lemma DivTwice(v: nat, a: nat, b: nat)
    requires a > 0 && b > 0
    ensures a * b > 0 && v / a / b == v / (a * b)
  {
    var m := v / a;
    var q, t, r := m / b, m % b, v % a;
    assert v == a * m + r && r < a;
    assert m == b * q + t && t < b;
    DivParts(v, a, b, q, t, r);
  }

  lemma DivParts(v: nat, a: nat, b: nat, q: nat, t: nat, r: nat)
    requires v == a * (b * q + t) + r && r < a && t < b
    ensures a * b > 0 && v / (a * b) == q
  {
    Distribute(a, b, q, t);
    MultipleGrows(a, t, b);
    QuotientIs(v, a * b, q, a * t + r);
  }

  lemma {:induction false} MultipleGrows(d: nat, x: nat, y: nat)
    requires x < y
    ensures d * x + d <= d * y
    decreases y
  {
    if y == x + 1 {
      assert d * (x + 1) == d * x + d;
    } else {
      MultipleGrows(d, x, y - 1);
      assert d * y == d * (y - 1) + d;
    }
  }

  lemma QuotientIs(v: nat, d: nat, q: nat, r: nat)
    requires 0 < d && r < d && v == d * q + r
    ensures v / d == q
  {
    var x, y := v / d, v % d;
    assert v == d * x + y && 0 <= y < d;
    if x < q {
      MultipleGrows(d, x, q);
    } else if q < x {
      MultipleGrows(d, q, x);
    }
  }

  /** The widths in use. */
  lemma Widths()
    ensures Span256(1) == 0x100 && Span256(2) == 0x1_0000 && Span256(4) == LIMIT && Span256(8) == LIMIT * LIMIT
  {
    assert Span256(3) == 0x100_0000 && Span256(5) == 256 * LIMIT;
    assert Span256(6) == 0x1_0000 * LIMIT && Span256(7) == 0x100_0000 * LIMIT;
  }

  // ----- records of fields -----

  function RowWidth(widths: seq<nat>): nat {
    if widths == [] then 0 else widths[0] + RowWidth(widths[1..])
  }

  lemma {:induction false} WidthsJoin(a: seq<nat>, b: seq<nat>)
    ensures RowWidth(a + b) == RowWidth(a) + RowWidth(b)
    decreases |a|
  {
    if a == [] {
      assert a + b == b;
    } else {
      WidthsJoin(a[1..], b);
      assert (a + b)[1..] == a[1..] + b;
    }
  }

  lemma OneMore(w: nat, rest: seq<nat>)
    ensures RowWidth([w] + rest) == w + RowWidth(rest)
  {
    assert ([w] + rest)[1..] == rest;
  }

  lemma NoWidths()
    ensures RowWidth([]) == 0
  {
  }

  lemma FourWidths(a: nat, b: nat, c: nat, d: nat)
    ensures RowWidth([a, b, c, d]) == a + b + c + d
  {
    hide RowWidth;
    OneMore(d, []);
    OneMore(c, [d]);
    OneMore(b, [c, d]);
    OneMore(a, [b, c, d]);
    NoWidths();
    assert [d] + [] == [d] && [c] + [d] == [c, d] && [b] + [c, d] == [b, c, d] && [a] + [b, c, d] == [a, b, c, d];
  }

  ghost predicate FieldsFit(values: seq<nat>, widths: seq<nat>) {
    |values| == |widths| && forall i | 0 <= i < |values| :: values[i] < Span256(widths[i])
  }

  /** Fields of the given widths, one after another. */
  function EncodeFields(values: seq<nat>, widths: seq<nat>): (r: seq<Byte>)
    requires |values| == |widths|
    ensures |r| == RowWidth(widths)
  {
    if values == [] then [] else EncodeField(values[0], widths[0]) + EncodeFields(values[1..], widths[1..])
  }

  function FieldValues(b: seq<Byte>, widths: seq<nat>): (r: seq<nat>)
    requires |b| == RowWidth(widths)
    ensures |r| == |widths|
    decreases |widths|
  {
    if widths == [] then [] else [FieldValue(b[..widths[0]])] + FieldValues(b[widths[0]..], widths[1..])
  }

  lemma NextOffset(widths: seq<nat>, i: nat)
    requires i < |widths|
    ensures RowWidth(widths[..i + 1]) == RowWidth(widths[..i]) + widths[i]
  {
    assert widths[..i + 1] == widths[..i] + [widths[i]];
    WidthsJoin(widths[..i], [widths[i]]);
    OneMore(widths[i], []);
    assert [widths[i]] + [] == [widths[i]];
  }

  /** Field `i` of a record starts behind the fields before it. */
  lemma {:induction false} FieldAt(values: seq<nat>, widths: seq<nat>, i: nat)
    requires |values| == |widths| && i < |widths|
    ensures RowWidth(widths[..i]) + widths[i] <= RowWidth(widths)
    ensures EncodeFields(values, widths)[RowWidth(widths[..i])..RowWidth(widths[..i]) + widths[i]] ==
              EncodeField(values[i], widths[i])
    decreases i
  {
    hide EncodeField;
    var w := widths[0];
    var head, rest := EncodeField(values[0], w), EncodeFields(values[1..], widths[1..]);
    assert EncodeFields(values, widths) == head + rest;
    if i > 0 {
      FieldAt(values[1..], widths[1..], i - 1);
      assert widths[..i] == [w] + widths[1..][..i - 1];
      OneMore(w, widths[1..][..i - 1]);
      var o := RowWidth(widths[1..][..i - 1]);
      assert (head + rest)[w + o..w + o + widths[i]] == rest[o..o + widths[i]];
    }
  }

  lemma {:induction false} FieldsReadBack(values: seq<nat>, widths: seq<nat>)
    requires FieldsFit(values, widths)
    ensures FieldValues(EncodeFields(values, widths), widths) == values
    decreases |values|
  {
    if values != [] {
      FieldsReadBack(values[1..], widths[1..]);
      FieldReadsBack(values[0], widths[0]);
      var first, rest := EncodeField(values[0], widths[0]), EncodeFields(values[1..], widths[1..]);
      assert (first + rest)[..widths[0]] == first && (first + rest)[widths[0]..] == rest;
    }
  }

  lemma {:induction false} FieldsAreCanonical(b: seq<Byte>, widths: seq<nat>)
    requires |b| == RowWidth(widths)
    ensures FieldsFit(FieldValues(b, widths), widths)
    ensures EncodeFields(FieldValues(b, widths), widths) == b
    decreases |widths|
  {
    if widths != [] {
      var w := widths[0];
      FieldIsCanonical(b[..w]);
      FieldsAreCanonical(b[w..], widths[1..]);
      var values := FieldValues(b, widths);
      assert values[1..] == FieldValues(b[w..], widths[1..]);
      assert b == b[..w] + b[w..];
    }
  }

  function EncodeU32(v: nat): (r: seq<Byte>)
    requires v < LIMIT
    ensures |r| == 4
  {
    EncodeField(v, 4)
  }

  function ValueU32(b: seq<Byte>): (v: nat)
    requires |b| == 4
    ensures v < LIMIT
  {
    FieldIsCanonical(b);
    Widths();
    FieldValue(b)
  }

  lemma U32ReadsBack(v: nat)
    requires v < LIMIT
    ensures ValueU32(EncodeU32(v)) == v
  {
    hide Span256, EncodeField, FieldValue;
    Widths();
    FieldReadsBack(v, 4);
  }

  lemma U32IsCanonical(b: seq<Byte>)
    requires |b| == 4
    ensures EncodeU32(ValueU32(b)) == b
  {
    hide Span256, EncodeField, FieldValue;
    FieldIsCanonical(b);
  }

  // ----- a reader over borrowed bytes -----

  class Reader {
    const bytes: seq<Byte>
    var offset: nat

    ghost predicate Valid()
      reads this
    {
      offset <= |bytes|
    }

    constructor (bytes: seq<Byte>)
      ensures Valid() && this.bytes == bytes && offset == 0
    {
      this.bytes := bytes;
      offset := 0;
    }

    /** Reads one value, or fails and leaves the cursor where it was. */
    method VarU32() returns (r: Result<nat, CodecError>)
      requires Valid()
      modifies this
      ensures Valid()
      ensures ReadVar(bytes, old(offset)).Ok? ==>
                r == Ok(ReadVar(bytes, old(offset)).value.0) && offset == ReadVar(bytes, old(offset)).value.1
      ensures ReadVar(bytes, old(offset)).Err? ==> r == Err(ReadVar(bytes, old(offset)).error) && offset == old(offset)
    {
      hide Groups, Continues, Weight, ReadVar;
      NothingRead(bytes, offset);
      var at := offset;
      var value: nat := 0;
      var group := 0;
      while group < 5
        invariant group <= 4 && at == offset + group && at <= |bytes| && offset == old(offset)
        invariant Continues(ReadVar(bytes, offset), value, Weight(group), Groups(bytes, at, group))
      {
        OneGroup(bytes, at, group, ReadVar(bytes, offset), value);
        if at >= |bytes| {
          return Err(Truncated);
        }
        var byte := bytes[at];
        at := at + 1;
        if group == 4 && byte > 15 {
          return Err(Overflow);
        }
        ghost var was := value;
        value := value + byte % 128 * Weight(group);
        if byte < 128 {
          if group != 0 && byte == 0 {
            return Err(NonCanonical);
          }
          offset := at;
          return Ok(value);
        }
        Deeper(ReadVar(bytes, offset), was, group, byte, Groups(bytes, at - 1, group), Groups(bytes, at, group + 1));
        group := group + 1;
      }
      return Err(Overflow);
    }
  }

  /** The whole result is what has been read plus the weighted rest. */
  ghost predicate Continues(whole: Result<(nat, nat), CodecError>, value: nat, weight: nat, rest: Result<(nat, nat),
      CodecError>)
  {
    if rest.Err? then whole == rest
    else whole == Ok((value + weight * rest.value.0, rest.value.1))
  }

  lemma Deeper(whole: Result<(nat, nat), CodecError>, value: nat, group: nat, byte: Byte, rest: Result<(nat, nat),
      CodecError>, next: Result<(nat, nat), CodecError>)
    requires Continues(whole, value, Weight(group), rest) && byte >= 128
    requires rest == if next.Err? then next else Ok((byte - 128 + 128 * next.value.0, next.value.1))
    ensures Continues(whole, value + byte % 128 * Weight(group), Weight(group + 1), next)
  {
    if next.Ok? {
      var w, x, n := Weight(group), byte - 128, next.value.0;
      assert byte % 128 == x;
      assert w * (x + 128 * n) == x * w + (128 * w) * n;
    }
  }

  lemma NothingRead(bytes: seq<Byte>, o: nat)
    ensures Continues(ReadVar(bytes, o), 0, Weight(0), Groups(bytes, o, 0))
  {
  }

  /** What the next byte decides. */
  lemma OneGroup(bytes: seq<Byte>, o: nat, group: nat, whole: Result<(nat, nat), CodecError>, value: nat)
    requires group < 5 && Continues(whole, value, Weight(group), Groups(bytes, o, group))
    ensures o >= |bytes| ==> whole == Err(Truncated)
    ensures o < |bytes| && group == 4 && bytes[o] > 15 ==> whole == Err(Overflow)
    ensures o < |bytes| && !(group == 4 && bytes[o] > 15) && bytes[o] < 128 ==>
              whole == if group != 0 && bytes[o] == 0 then Err(NonCanonical)
                  else Ok((value + bytes[o] % 128 * Weight(group), o + 1))
    ensures o < |bytes| && !(group == 4 && bytes[o] > 15) && bytes[o] >= 128 ==>
              var next := Groups(bytes, o + 1, group + 1);
              Groups(bytes, o, group) == if next.Err? then next
                  else Ok((bytes[o] - 128 + 128 * next.value.0, next.value.1))
  {
    hide Weight;
    if o < |bytes| && bytes[o] < 128 {
      assert bytes[o] % 128 == bytes[o];
      assert bytes[o] * Weight(group) == Weight(group) * bytes[o];
    }
  }

  /** Writes one value group by group. */
  method WriteVar(v: nat) returns (r: seq<Byte>)
    ensures r == EncodeVar(v)
  {
    r := [];
    var left := v;
    while true
      invariant r + EncodeVar(left) == EncodeVar(v)
      decreases left
    {
      var low: Byte := left % 128;
      var rest := left / 128;
      if rest == 0 {
        return r + [low];
      }
      assert r + EncodeVar(left) == (r + [low + 128]) + EncodeVar(rest);
      r := r + [low + 128];
      left := rest;
    }
  }
}
