/** The grammar of Protocol Buffers wire format, and that the decoder accepts just the words of it. */
module WireFormat {
  import opened Common
  import opened Wire

  // ---- The grammar ----

  /** Seven bits a byte, the least significant first. */
  function Sevens(b: Bytes): nat {
    if b == [] then 0 else b[0] % 128 + 128 * Sevens(b[1..])
  }

  /** A varint of at most ten bytes and 64 bits: all bytes but the last have their top bit set. */
  predicate IsVarint(b: Bytes, v: nat) {
    && 1 <= |b| <= 10 && v < 0x1_0000_0000_0000_0000 && Sevens(b) == v
    && b[|b| - 1] < 128 && forall k :: 0 <= k < |b| - 1 ==> b[k] >= 128
  }

  predicate IsTag(b: Bytes, number: nat, wireType: nat) {
    1 <= number <= 0x7FFF_FFFF && wireType < 8 && IsVarint(b, 8 * number + wireType)
  }

  /** A length, then as many bytes. */
  predicate IsPrefixed(b: Bytes, content: Bytes) {
    |content| <= |b| && IsVarint(b[..|b| - |content|], |content|) && b[|b| - |content|..] == content
  }

  /** The value of a field; a group holds fields and then the end tag of its own number, and nests only so deep. */
  ghost predicate IsValue(b: Bytes, number: nat, wireType: nat, depth: int)
    decreases |b|, 1
  {
    || (wireType == 0 && exists v :: IsVarint(b, v))
    || (wireType == 1 && |b| == 8)
    || (wireType == 2 && exists content :: IsPrefixed(b, content))
    || (wireType == 3 && 0 <= depth && exists k | 0 <= k < |b| ::
          IsTag(b[k..], number, 4) && IsFields(b[..k], depth - 1))
    || (wireType == 5 && |b| == 4)
  }

  /** The fields inside of a group. */
  ghost predicate IsFields(b: Bytes, depth: int)
    decreases |b|, 0
  {
    b == [] || exists i, j, number, wireType | 0 < i <= j <= |b| ::
      && IsTag(b[..i], number, wireType) && wireType != 4
      && IsValue(b[i..j], number, wireType, depth) && IsFields(b[j..], depth)
  }

  /** The bytes of one field. */
  ghost predicate IsField(b: Bytes, f: Field) {
    exists i | 0 < i <= |b| :: IsTagged(b[..i], b[i..], f)
  }

  ghost predicate IsTagged(tag: Bytes, value: Bytes, f: Field) {
    match f
    case VarintField(number, v) => IsTag(tag, number, 0) && IsVarint(value, v)
    case Fixed64Field(number, bits) => IsTag(tag, number, 1) && |value| == 8 && bits == value
    case BytesField(number, bytes) => IsTag(tag, number, 2) && IsPrefixed(value, bytes)
    case GroupField(number) => IsTag(tag, number, 3) && IsValue(value, number, 3, 10000)
    case Fixed32Field(number, bits) => IsTag(tag, number, 5) && |value| == 4 && bits == value
  }

  /** The bytes of these fields, one after the other. */
  ghost predicate IsMessage(b: Bytes, fields: seq<Field>)
    decreases |fields|
  {
    if fields == [] then b == []
    else exists n | 0 <= n <= |b| :: IsField(b[..n], fields[0]) && IsMessage(b[n..], fields[1..])
  }

  // ---- Varints ----

  /** The first byte without its top bit set is the n-th. */
  predicate Ends(b: Bytes, n: nat) {
    1 <= n <= |b| && b[n - 1] < 128 && forall k :: 0 <= k < n - 1 ==> b[k] >= 128
  }

  lemma EndsRest(b: Bytes, n: nat)
    requires b != [] && b[0] >= 128
    ensures Ends(b, n) <==> n > 1 && Ends(b[1..], n - 1)
  {
    if n > 1 && Ends(b[1..], n - 1) {
      forall k | 0 <= k < n - 1 ensures b[k] >= 128 {
        if k > 0 {
          assert b[1..][k - 1] == b[k];
        }
      }
    }
  }

  lemma SevensRest(b: Bytes, n: nat)
    requires 1 <= n <= |b|
    ensures Sevens(b[..n]) == b[0] % 128 + 128 * Sevens(b[1..][..n - 1])
  {
    assert b[..n][1..] == b[1..][..n - 1];
  }

  lemma {:induction false} VarintSound(b: Bytes, i: nat)
    requires i <= 9 && Varint(b, i).Some?
    ensures var Read(v, n) := Varint(b, i).value; Ends(b, n) && n <= 10 - i && v < Limit(i) && Sevens(b[..n]) == v
    decreases 9 - i
  {
    hide Ends, Sevens, Limit;
    var Read(v, n) := Varint(b, i).value;
    SevensRest(b, n);
    if i == 9 || b[0] < 128 {
      LastByte(b);
    } else {
      VarintSound(b[1..], i + 1);
      EndsRest(b, n);
    }
  }

  lemma LastByte(b: Bytes)
    requires b != []
    ensures b[0] < 128 ==> Ends(b, 1)
    ensures Sevens(b[1..][..0]) == 0
    ensures b[0] < 128 ==> forall n :: Ends(b, n) ==> n == 1
  {
  }

  lemma {:induction false} VarintComplete(b: Bytes, i: nat, n: nat)
    requires i <= 9 && Ends(b, n) && n <= 10 - i && Sevens(b[..n]) < Limit(i)
    ensures Varint(b, i) == Some(Read(Sevens(b[..n]), n))
    decreases 9 - i
  {
    hide Ends, Sevens, Limit;
    EndsIn(b, n);
    SevensRest(b, n);
    LastByte(b);
    LimitStep(i);
    if b[0] >= 128 {
      EndsRest(b, n);
      VarintComplete(b[1..], i + 1, n - 1);
    }
  }

  lemma EndsIn(b: Bytes, n: nat)
    requires Ends(b, n)
    ensures 1 <= n <= |b| && (n == 1 ==> b[0] < 128)
  {
  }

  lemma LimitStep(i: nat)
    requires i <= 9
    ensures Limit(i) == if i == 9 then 2 else 128 * Limit(i + 1)
  {
  }

  lemma VarintIs(b: Bytes, v: nat, n: nat)
    ensures Varint(b, 0) == Some(Read(v, n)) <==> 1 <= n <= |b| && IsVarint(b[..n], v)
  {
    hide Limit, Varint, Sevens;
    LimitZero();
    if Varint(b, 0).Some? {
      VarintSound(b, 0);
    }
    if 1 <= n <= |b| && IsVarint(b[..n], v) {
      assert b[..n][n - 1] == b[n - 1] && forall k :: 0 <= k < n - 1 ==> b[..n][k] == b[k];
      VarintComplete(b, 0, n);
    }
  }

  // ---- Tags and values ----

  lemma TagIs(b: Bytes, number: nat, wireType: nat, n: nat)
    ensures ConsumeTag(b) == Some(Read(Tag(number, wireType), n)) <==>
              1 <= n <= |b| && IsTag(b[..n], number, wireType)
  {
    hide IsVarint, Varint;
    VarintIs(b, 8 * number + wireType, n);
    if ConsumeTag(b).Some? {
      var Read(v, k) := Varint(b, 0).value;
      assert v == 8 * (v / 8) + v % 8;
    }
  }

  lemma PrefixedIs(b: Bytes, content: Bytes, n: nat)
    ensures ConsumeBytes(b) == Some(Read(content, n)) <==> n <= |b| && IsPrefixed(b[..n], content)
  {
    hide IsVarint, Varint;
    if ConsumeBytes(b).Some? {
      var Read(m, k) := Varint(b, 0).value;
      VarintIs(b, m, k);
      assert b[..k + m][..k] == b[..k] && b[..k + m][k..] == b[k..k + m];
    }
    if n <= |b| && IsPrefixed(b[..n], content) {
      var k := n - |content|;
      assert b[..n][..k] == b[..k] && b[..n][k..] == b[k..n];
      SomeBytes(b[..k], |content|);
      VarintIs(b, |content|, k);
    }
  }

  lemma SomeBytes(b: Bytes, v: nat)
    ensures IsVarint(b, v) ==> 1 <= |b|
  {
  }

  /** What the decoder takes for a value is one. */
  lemma {:induction false} ValueSound(number: nat, wireType: nat, b: Bytes, depth: int)
    requires FieldValue(number, wireType, b, depth).Some?
    ensures IsValue(b[..FieldValue(number, wireType, b, depth).value], number, wireType, depth)
    decreases |b|, 1
  {
    hide Varint, ConsumeBytes, IsVarint, IsPrefixed, IsTag, IsFields, Group;
    if wireType == VARINT {
      var Read(v, n) := Varint(b, 0).value;
      VarintIs(b, v, n);
    } else if wireType == BYTES {
      var Read(content, n) := ConsumeBytes(b).value;
      PrefixedIs(b, content, n);
    } else if wireType == START_GROUP {
      var k := GroupSound(number, b, depth);
      var n := Group(number, b, depth).value;
      assert b[..n][..k] == b[..k] && b[..n][k..] == b[k..n];
    }
  }

  lemma {:induction false} GroupSound(number: nat, b: Bytes, depth: int) returns (k: nat)
    requires Group(number, b, depth).Some?
    ensures var n := Group(number, b, depth).value;
            k < n <= |b| && IsTag(b[k..n], number, 4) && IsFields(b[..k], depth - 1)
    decreases |b|, 0
  {
    hide IsTag, IsValue, ConsumeTag, FieldValue;
    var Read(tag, i) := ConsumeTag(b).value;
    TagIs(b, tag.number, tag.wireType, i);
    if tag.wireType == END_GROUP {
      k := 0;
      assert b[0..i] == b[..i];
    } else {
      var m := FieldValue(tag.number, tag.wireType, b[i..], depth - 1).value;
      ValueSound(tag.number, tag.wireType, b[i..], depth - 1);
      var j := i + m;
      var rest := GroupSound(number, b[j..], depth);
      k := j + rest;
      var n := Group(number, b, depth).value;
      assert b[j..][rest..n - j] == b[k..n];
      FieldFirst(b[..k], i, j, tag.number, tag.wireType, depth - 1) by {
        assert b[..k][..i] == b[..i] && b[..k][i..j] == b[i..][..m] && b[..k][j..] == b[j..][..rest];
      }
    }
  }

  lemma FieldFirst(b: Bytes, i: nat, j: nat, number: nat, wireType: nat, depth: int)
    requires 0 < i <= j <= |b| && IsTag(b[..i], number, wireType) && wireType != 4
    requires IsValue(b[i..j], number, wireType, depth) && IsFields(b[j..], depth)
    ensures IsFields(b, depth)
  {
  }

  /** And every value is taken for one, whatever follows. */
  lemma {:induction false} ValueComplete(number: nat, wireType: nat, b: Bytes, rest: Bytes, depth: int)
    requires IsValue(b, number, wireType, depth)
    ensures FieldValue(number, wireType, b + rest, depth) == Some(|b|)
    decreases |b|, 1
  {
    hide Varint, ConsumeBytes, IsVarint, IsPrefixed, IsTag, IsFields, Group;
    assert (b + rest)[..|b|] == b;
    if wireType == VARINT {
      var v :| IsVarint(b, v);
      SomeBytes(b, v);
      VarintIs(b + rest, v, |b|);
    } else if wireType == BYTES {
      var content :| IsPrefixed(b, content);
      PrefixedIs(b + rest, content, |b|);
    } else if wireType == START_GROUP {
      var k :| 0 <= k < |b| && IsTag(b[k..], number, 4) && IsFields(b[..k], depth - 1);
      GroupComplete(number, b[..k], b[k..], rest, depth);
      assert b[..k] + b[k..] == b;
    }
  }

  lemma {:induction false} GroupComplete(number: nat, fields: Bytes, end: Bytes, rest: Bytes, depth: int)
    requires IsFields(fields, depth - 1) && IsTag(end, number, 4)
    ensures Group(number, fields + end + rest, depth) == Some(|fields + end|)
    decreases |fields|, 0
  {
    hide IsTag, IsValue, ConsumeTag, FieldValue, Group;
    var b := fields + end + rest;
    if fields == [] {
      assert b == end + rest && fields + end == end;
      TagComplete(end, number, 4, rest);
      GroupEnds(number, b, |end|, depth);
    } else {
      var i, j, inner, wireType :| 0 < i <= j <= |fields| && IsTag(fields[..i], inner, wireType) && wireType != 4
        && IsValue(fields[i..j], inner, wireType, depth - 1) && IsFields(fields[j..], depth - 1);
      Regroup(fields, end, rest, i, j);
      TagComplete(fields[..i], inner, wireType, b[i..]);
      ValueComplete(inner, wireType, fields[i..j], b[j..], depth - 1);
      GroupComplete(number, fields[j..], end, rest, depth);
      GroupGoesOn(number, b, i, j, inner, wireType, |fields[j..] + end|, depth);
    }
  }

  lemma Regroup(fields: Bytes, end: Bytes, rest: Bytes, i: nat, j: nat)
    requires i <= j <= |fields|
    ensures var b := fields + end + rest;
            b == fields[..i] + b[i..] && b[i..] == fields[i..j] + b[j..] && b[j..] == fields[j..] + end + rest
  {
  }

  lemma GroupEnds(number: nat, b: Bytes, n: nat, depth: int)
    requires ConsumeTag(b) == Some(Read(Tag(number, 4), n))
    ensures Group(number, b, depth) == Some(n)
  {
    hide ConsumeTag;
  }

  lemma GroupGoesOn(number: nat, b: Bytes, i: nat, j: nat, inner: nat, wireType: nat, n: nat, depth: int)
    requires i <= j <= |b| && wireType != 4 && ConsumeTag(b) == Some(Read(Tag(inner, wireType), i))
    requires FieldValue(inner, wireType, b[i..], depth - 1) == Some(j - i) && Group(number, b[j..], depth) == Some(n)
    ensures Group(number, b, depth) == Some(j + n)
  {
    hide ConsumeTag, FieldValue;
  }

  lemma TagComplete(b: Bytes, number: nat, wireType: nat, rest: Bytes)
    requires IsTag(b, number, wireType)
    ensures ConsumeTag(b + rest) == Some(Read(Tag(number, wireType), |b|))
  {
    assert (b + rest)[..|b|] == b;
    TagIs(b + rest, number, wireType, |b|);
  }

  // ---- Fields and messages ----

  /** The decoder takes a field off the front exactly if the bytes start with one. */
  lemma FieldIs(b: Bytes, f: Field, n: nat)
    ensures DecodeOne(b) == Some(Read(f, n)) <==> n <= |b| && IsField(b[..n], f)
  {
    hide IsTagged, DecodeOne;
    if DecodeOne(b) == Some(Read(f, n)) {
      FieldSound(b);
    }
    if n <= |b| && IsField(b[..n], f) {
      var i :| 0 < i <= n && IsTagged(b[..n][..i], b[..n][i..], f);
      FieldComplete(b[..n][..i], b[..n][i..], f, b[n..]);
      assert b[..n][..i] + b[..n][i..] + b[n..] == b;
    }
  }

  lemma FieldSound(b: Bytes)
    requires DecodeOne(b).Some?
    ensures var Read(f, n) := DecodeOne(b).value; n <= |b| && IsField(b[..n], f)
  {
    hide Varint, ConsumeTag, ConsumeBytes, FieldValue, IsVarint, IsPrefixed, IsTag, IsValue;
    var Read(f, n) := DecodeOne(b).value;
    var Read(tag, i) := ConsumeTag(b).value;
    var rest := b[i..];
    TagIs(b, tag.number, tag.wireType, i);
    assert b[..n][..i] == b[..i] && b[..n][i..] == rest[..n - i];
    match f
    case VarintField(_, v) => VarintIs(rest, v, n - i);
    case BytesField(_, bytes) => PrefixedIs(rest, bytes, n - i);
    case GroupField(_) =>
      OnlyGroups(tag.number, tag.wireType, rest);
      ValueSound(tag.number, tag.wireType, rest, RECURSION_LIMIT);
    case _ =>
    assert IsTagged(b[..n][..i], b[..n][i..], f);
  }

  lemma OnlyGroups(number: nat, wireType: nat, b: Bytes)
    requires FieldValue(number, wireType, b, RECURSION_LIMIT).Some?
    ensures wireType in {VARINT, FIXED64, BYTES, START_GROUP, FIXED32}
  {
  }

  lemma FieldComplete(tag: Bytes, value: Bytes, f: Field, rest: Bytes)
    requires IsTagged(tag, value, f)
    ensures DecodeOne(tag + value + rest) == Some(Read(f, |tag + value|))
  {
    hide Varint, ConsumeTag, ConsumeBytes, FieldValue, IsVarint, IsPrefixed, IsTag, IsValue;
    var b := tag + value + rest;
    assert b == tag + (value + rest) && b[|tag|..] == value + rest && (value + rest)[..|value|] == value;
    match f
    case VarintField(number, v) =>
      TagComplete(tag, number, 0, value + rest);
      SomeBytes(value, v);
      VarintIs(value + rest, v, |value|);
    case Fixed64Field(number, bits) => TagComplete(tag, number, 1, value + rest);
    case BytesField(number, bytes) =>
      TagComplete(tag, number, 2, value + rest);
      PrefixedIs(value + rest, bytes, |value|);
    case GroupField(number) =>
      TagComplete(tag, number, 3, value + rest);
      ValueComplete(number, 3, value, rest, RECURSION_LIMIT);
    case Fixed32Field(number, bits) => TagComplete(tag, number, 5, value + rest);
  }

  /** The decoder returns some fields exactly if the payload is a message of these. */
  lemma {:induction false} MessageIs(b: Bytes, fields: seq<Field>)
    ensures Decode(b) == Some(fields) <==> IsMessage(b, fields)
    decreases |fields|
  {
    hide IsField, DecodeOne;
    if b == [] {
      if fields != [] && IsMessage(b, fields) {
        var n :| 0 <= n <= |b| && IsField(b[..n], fields[0]) && IsMessage(b[n..], fields[1..]);
        FieldIs(b, fields[0], n);
        NoField();
      }
    } else if fields != [] {
      if Decode(b) == Some(fields) {
        var Read(f, n) := DecodeOne(b).value;
        FieldIs(b, f, n);
        assert f == fields[0] && Decode(b[n..]).value == fields[1..];
        MessageIs(b[n..], fields[1..]);
      }
      if IsMessage(b, fields) {
        var n :| 0 <= n <= |b| && IsField(b[..n], fields[0]) && IsMessage(b[n..], fields[1..]);
        FieldIs(b, fields[0], n);
        MessageIs(b[n..], fields[1..]);
        assert [fields[0]] + fields[1..] == fields;
      }
    }
  }

  lemma NoField()
    ensures DecodeOne([]).None?
  {
  }

  /** What the encoder appends is a field of this number and value. */
  lemma AppendsField(payload: Bytes, number: nat, v: nat, bytes: Bytes, bits: Bytes)
    requires 1 <= number <= MAX_INT32 && v < 0x1_0000_0000_0000_0000 && |bytes| < 0x1_0000_0000_0000_0000 && |bits| == 8
    ensures exists b :: AppendVarintField(payload, number, v) == payload + b && IsField(b, VarintField(number, v))
    ensures exists b :: AppendBytes(payload, number, bytes) == payload + b && IsField(b, BytesField(number, bytes))
    ensures exists b ::
              AppendFixed64Field(payload, number, bits) == payload + b && IsField(b, Fixed64Field(number, bits))
  {
    hide IsField, DecodeOne, AppendTag, AppendVarint;
    var x, y, z := AppendTag(number, VARINT) + AppendVarint(v),
                   AppendTag(number, BYTES) + (AppendVarint(|bytes|) + bytes), AppendTag(number, FIXED64) + bits;
    OneVarint(number, v);
    OneBytes(number, bytes);
    OneFixed64(number, bits);
    FieldIs(x, VarintField(number, v), |x|);
    FieldIs(y, BytesField(number, bytes), |y|);
    FieldIs(z, Fixed64Field(number, bits), |z|);
    assert x[..|x|] == x && y[..|y|] == y && z[..|z|] == z;
    assert AppendVarintField(payload, number, v) == payload + x && AppendBytes(payload, number, bytes) == payload + y
           && AppendFixed64Field(payload, number, bits) == payload + z;
  }
}
