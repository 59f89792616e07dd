/** Protocol Buffers wire fields: what the decoder accepts, what the encoder appends, and how fields are looked up. */
module Wire {
  import opened Common

  /** Bytes read and how many there were; a length is positive. */
  datatype Read<+T> = Read(value: T, length: nat)

  // ---- Varints ----

  /** The first value that does not fit into the bits left after i bytes: 2^(64 - 7 i). */
  function Limit(i: nat): (r: nat)
    requires i <= 9
    ensures r >= 2
    decreases 9 - i
  {
    if i == 9 then 2 else 128 * Limit(i + 1)
  }

  /** The varint that continues at b after i bytes; None if it is cut off or exceeds 64 bits. */
  function Varint(b: Bytes, i: nat): (r: Option<Read<nat>>)
    requires i <= 9
    ensures r.Some? ==> 1 <= r.value.length <= |b| && r.value.length <= 10 - i && r.value.value < Limit(i)
    decreases 9 - i
  {
    if b == [] then None
    else if i == 9 then (if b[0] < 2 then Some(Read(b[0], 1)) else None)
    else if b[0] < 0x80 then Some(Read(b[0], 1))
    else
      match Varint(b[1..], i + 1)
      case None => None
      case Some(Read(high, n)) => Some(Read(b[0] - 0x80 + 128 * high, n + 1))
  }

  function AppendVarint(v: nat): (b: Bytes)
    ensures |b| > 0
  {
    if v < 0x80 then [v] else [v % 128 + 0x80] + AppendVarint(v / 128)
  }

  lemma {:induction false} VarintInverse(v: nat, rest: Bytes, i: nat)
    requires i <= 9 && v < Limit(i)
    ensures Varint(AppendVarint(v) + rest, i) == Some(Read(v, |AppendVarint(v)|))
    decreases 9 - i
  {
    var b := AppendVarint(v) + rest;
    if v >= 0x80 {
      VarintInverse(v / 128, rest, i + 1);
      assert b[1..] == AppendVarint(v / 128) + rest;
    }
  }

  lemma {:induction false} VarintExtends(a: Bytes, b: Bytes, i: nat)
    requires i <= 9 && Varint(a, i).Some?
    ensures Varint(a + b, i) == Varint(a, i)
    decreases 9 - i
  {
    if i < 9 && a[0] >= 0x80 {
      VarintExtends(a[1..], b, i + 1);
      assert (a + b)[1..] == a[1..] + b;
    }
  }

  // ---- Tags and values ----

  const MAX_INT32: nat := 0x7FFF_FFFF
  const VARINT: nat := 0
  const FIXED64: nat := 1
  const BYTES: nat := 2
  const START_GROUP: nat := 3
  const END_GROUP: nat := 4
  const FIXED32: nat := 5
  const RECURSION_LIMIT: nat := 10000

  datatype Tag = Tag(number: nat, wireType: nat)

  function ConsumeTag(b: Bytes): (r: Option<Read<Tag>>)
    ensures r.Some? ==> 1 <= r.value.length <= |b|
    ensures r.Some? ==> 1 <= r.value.value.number <= MAX_INT32 && r.value.value.wireType < 8
  {
    match Varint(b, 0)
    case None => None
    case Some(Read(v, n)) => if v / 8 > MAX_INT32 || v / 8 < 1 then None else Some(Read(Tag(v / 8, v % 8), n))
  }

  function AppendTag(number: nat, wireType: nat): Bytes
    requires wireType < 8
  {
    AppendVarint(8 * number + wireType)
  }

  function ConsumeBytes(b: Bytes): (r: Option<Read<Bytes>>)
    ensures r.Some? ==> 1 <= r.value.length <= |b|
  {
    match Varint(b, 0)
    case None => None
    case Some(Read(m, n)) => if m > |b| - n then None else Some(Read(b[n..n + m], n + m))
  }

  function ConsumeFixed(b: Bytes, width: nat): Option<Read<Bytes>> {
    if |b| < width then None else Some(Read(b[..width], width))
  }

  /** The length of a field value of some type; a group ends with the end tag of its own number. */
  function FieldValue(number: nat, wireType: nat, b: Bytes, depth: int): (r: Option<nat>)
    ensures r.Some? ==> r.value <= |b|
    decreases |b|, 1
  {
    if wireType == VARINT then (match Varint(b, 0) case None => None case Some(v) => Some(v.length))
    else if wireType == FIXED64 then (if |b| < 8 then None else Some(8))
    else if wireType == BYTES then (match ConsumeBytes(b) case None => None case Some(v) => Some(v.length))
    else if wireType == START_GROUP then (if depth < 0 then None else Group(number, b, depth))
    else if wireType == FIXED32 then (if |b| < 4 then None else Some(4))
    else None
  }

  function Group(number: nat, b: Bytes, depth: int): (r: Option<nat>)
    ensures r.Some? ==> r.value <= |b|
    decreases |b|, 0
  {
    match ConsumeTag(b)
    case None => None
    case Some(Read(tag, n)) =>
      if tag.wireType == END_GROUP then (if tag.number == number then Some(n) else None)
      else
        match FieldValue(tag.number, tag.wireType, b[n..], depth - 1)
        case None => None
        case Some(m) =>
          match Group(number, b[n + m..], depth)
          case None => None
          case Some(k) => Some(n + m + k)
  }

  // ---- Fields ----

  /** A decoded field; of a group only its number is kept. */
  datatype Field =
    | VarintField(number: nat, value: nat)
    | Fixed64Field(number: nat, bits: Bytes)
    | BytesField(number: nat, bytes: Bytes)
    | GroupField(number: nat)
    | Fixed32Field(number: nat, bits: Bytes)

  /** One field with its tag. */
  function DecodeOne(b: Bytes): (r: Option<Read<Field>>)
    ensures r.Some? ==> 1 <= r.value.length <= |b|
  {
    match ConsumeTag(b)
    case None => None
    case Some(Read(tag, n)) =>
      var rest := b[n..];
      if tag.wireType == BYTES then
        (match ConsumeBytes(rest)
         case None => None
         case Some(Read(v, m)) => Some(Read(BytesField(tag.number, v), n + m)))
      else if tag.wireType == VARINT then
        (match Varint(rest, 0) case None => None case Some(Read(v, m)) => Some(Read(VarintField(tag.number, v), n + m)))
      else if tag.wireType == FIXED64 then
        (match ConsumeFixed(rest, 8)
         case None => None
         case Some(Read(v, m)) => Some(Read(Fixed64Field(tag.number, v), n + m)))
      else if tag.wireType == FIXED32 then
        (match ConsumeFixed(rest, 4)
         case None => None
         case Some(Read(v, m)) => Some(Read(Fixed32Field(tag.number, v), n + m)))
      else
        (match FieldValue(tag.number, tag.wireType, rest, RECURSION_LIMIT)
         case None => None
         case Some(m) => Some(Read(GroupField(tag.number), n + m)))
  }

  function Decode(b: Bytes): Option<seq<Field>>
    decreases |b|
  {
    if b == [] then Some([])
    else
      match DecodeOne(b)
      case None => None
      case Some(Read(field, n)) =>
        Then([field], Decode(b[n..]))
  }

  function Then(fields: seq<Field>, more: Option<seq<Field>>): Option<seq<Field>> {
    match more case None => None case Some(fs) => Some(fields + fs)
  }

  lemma ThenLaws(a: seq<Field>, b: seq<Field>, more: Option<seq<Field>>)
    ensures Then([], more) == more && Then(a, Some([])) == Some(a)
    ensures Then(a, Then(b, more)) == Then(a + b, more)
  {
    assert a + [] == a;
    if more.Some? {
      assert a + (b + more.value) == a + b + more.value && [] + more.value == more.value;
    }
  }

  /** decodeWireFields. */
  method DecodeWireFields(payload: Bytes) returns (r: Option<seq<Field>>)
    ensures r == Decode(payload)
  {
    hide DecodeOne, Then;
    var fields: seq<Field>, rest := [], payload;
    ThenLaws([], [], Decode(payload));
    while rest != []
      invariant Decode(payload) == Then(fields, Decode(rest))
      decreases |rest|
    {
      var one := DecodeOne(rest);
      if one.None? {
        assert Then(fields, None) == None by { ThenNone(fields); }
        return None;
      }
      ThenLaws(fields, [one.value.value], Decode(rest[one.value.length..]));
      fields := fields + [one.value.value];
      rest := rest[one.value.length..];
    }
    ThenLaws(fields, [], None);
    r := Some(fields);
  }

  lemma ThenNone(fields: seq<Field>)
    ensures Then(fields, None) == None
  {
  }

  // ---- Concatenation ----

  lemma TagExtends(a: Bytes, b: Bytes)
    requires ConsumeTag(a).Some?
    ensures ConsumeTag(a + b) == ConsumeTag(a)
  {
    VarintExtends(a, b, 0);
  }

  lemma BytesExtends(a: Bytes, b: Bytes)
    requires ConsumeBytes(a).Some?
    ensures ConsumeBytes(a + b) == ConsumeBytes(a)
  {
    VarintExtends(a, b, 0);
    var n, m := Varint(a, 0).value.length, Varint(a, 0).value.value;
    assert (a + b)[n..n + m] == a[n..n + m];
  }

  lemma {:induction false} FieldValueExtends(number: nat, wireType: nat, a: Bytes, b: Bytes, depth: int)
    requires FieldValue(number, wireType, a, depth).Some?
    ensures FieldValue(number, wireType, a + b, depth) == FieldValue(number, wireType, a, depth)
    decreases |a|, 1
  {
    if wireType == VARINT {
      VarintExtends(a, b, 0);
    } else if wireType == BYTES {
      BytesExtends(a, b);
    } else if wireType == START_GROUP {
      GroupExtends(number, a, b, depth);
    }
  }

  lemma {:induction false} GroupExtends(number: nat, a: Bytes, b: Bytes, depth: int)
    requires Group(number, a, depth).Some?
    ensures Group(number, a + b, depth) == Group(number, a, depth)
    decreases |a|, 0
  {
    hide Varint, ConsumeTag, FieldValue;
    TagExtends(a, b);
    var Read(tag, n) := ConsumeTag(a).value;
    if tag.wireType != END_GROUP {
      var m := FieldValue(tag.number, tag.wireType, a[n..], depth - 1).value;
      FieldValueExtends(tag.number, tag.wireType, a[n..], b, depth - 1);
      assert (a + b)[n..] == a[n..] + b;
      GroupExtends(number, a[n + m..], b, depth);
      assert (a + b)[n + m..] == a[n + m..] + b;
    }
  }

  lemma DecodeOneExtends(a: Bytes, b: Bytes)
    requires DecodeOne(a).Some?
    ensures DecodeOne(a + b) == DecodeOne(a)
  {
    hide Varint, ConsumeTag, FieldValue, ConsumeBytes;
    TagExtends(a, b);
    var Read(tag, n) := ConsumeTag(a).value;
    assert (a + b)[n..] == a[n..] + b;
    if tag.wireType == BYTES {
      BytesExtends(a[n..], b);
    } else if tag.wireType == VARINT {
      VarintExtends(a[n..], b, 0);
    } else if tag.wireType == FIXED64 {
      assert (a[n..] + b)[..8] == a[n..][..8];
    } else if tag.wireType == FIXED32 {
      assert (a[n..] + b)[..4] == a[n..][..4];
    } else {
      FieldValueExtends(tag.number, tag.wireType, a[n..], b, RECURSION_LIMIT);
    }
  }

  /**
   Decoding is a homomorphism: the fields of two payloads end to end are the fields of the first, then of the second.
   */
  lemma {:induction false} DecodeConcat(a: Bytes, b: Bytes)
    requires Decode(a).Some?
    ensures Decode(a + b) == Then(Decode(a).value, Decode(b))
    decreases |a|
  {
    hide DecodeOne;
    if a == [] {
      assert a + b == b;
      ThenLaws([], [], Decode(b));
    } else {
      var Read(field, n) := DecodeOne(a).value;
      DecodeOneExtends(a, b);
      DecodeConcat(a[n..], b);
      assert (a + b)[n..] == a[n..] + b;
      ThenLaws([field], Decode(a[n..]).value, Decode(b));
    }
  }

  // ---- What the encoder appends ----

  function AppendVarintField(payload: Bytes, number: nat, value: nat): Bytes {
    payload + AppendTag(number, VARINT) + AppendVarint(value)
  }

  function AppendFixed64Field(payload: Bytes, number: nat, bits: Bytes): Bytes {
    payload + AppendTag(number, FIXED64) + bits
  }

  function AppendBool(payload: Bytes, number: nat, value: bool): Bytes {
    AppendVarintField(payload, number, if value then 1 else 0)
  }

  /** appendString and appendMessage. */
  function AppendBytes(payload: Bytes, number: nat, value: Bytes): Bytes {
    payload + AppendTag(number, BYTES) + (AppendVarint(|value|) + value)
  }

  lemma LimitZero()
    ensures Limit(0) == 0x1_0000_0000_0000_0000
  {
    assert Limit(8) == 256 && Limit(6) == 128 * 128 * 256;
    assert Limit(4) == 128 * 128 * Limit(6) && Limit(2) == 128 * 128 * Limit(4);
  }

  lemma TagInverse(number: nat, wireType: nat, rest: Bytes)
    requires 1 <= number <= MAX_INT32 && wireType < 8
    ensures ConsumeTag(AppendTag(number, wireType) + rest) ==
            Some(Read(Tag(number, wireType), |AppendTag(number, wireType)|))
  {
    LimitZero();
    VarintInverse(8 * number + wireType, rest, 0);
  }

  lemma OneVarint(number: nat, value: nat)
    requires 1 <= number <= MAX_INT32 && value < 0x1_0000_0000_0000_0000
    ensures var more := AppendTag(number, VARINT) + AppendVarint(value);
            DecodeOne(more) == Some(Read(VarintField(number, value), |more|))
  {
    hide Varint, ConsumeTag, FieldValue, AppendVarint, Limit;
    LimitZero();
    var tag, v := AppendTag(number, VARINT), AppendVarint(value);
    TagInverse(number, VARINT, v);
    VarintInverse(value, [], 0);
    assert (tag + v)[|tag|..] == v && v + [] == v;
  }

  lemma OneBytes(number: nat, value: Bytes)
    requires 1 <= number <= MAX_INT32 && |value| < 0x1_0000_0000_0000_0000
    ensures var more := AppendTag(number, BYTES) + (AppendVarint(|value|) + value);
            DecodeOne(more) == Some(Read(BytesField(number, value), |more|))
  {
    hide Varint, ConsumeTag, FieldValue, AppendVarint, Limit;
    LimitZero();
    var tag, length := AppendTag(number, BYTES), AppendVarint(|value|);
    var v := length + value;
    TagInverse(number, BYTES, v);
    VarintInverse(|value|, value, 0);
    assert (tag + v)[|tag|..] == v && v[|length|..|length| + |value|] == value;
  }

  /** What is appended decodes, after whatever was there, to one more field. */
  lemma AppendedVarint(payload: Bytes, number: nat, value: nat)
    requires Decode(payload).Some? && 1 <= number <= MAX_INT32 && value < 0x1_0000_0000_0000_0000
    ensures Decode(AppendVarintField(payload, number, value)) ==
            Some(Decode(payload).value + [VarintField(number, value)])
  {
    hide DecodeOne, AppendTag, AppendVarint;
    OneVarint(number, value);
    AppendedOne(payload, AppendTag(number, VARINT) + AppendVarint(value), VarintField(number, value));
    assert AppendVarintField(payload, number, value) == payload + (AppendTag(number, VARINT) + AppendVarint(value));
  }

  lemma AppendedBytes(payload: Bytes, number: nat, value: Bytes)
    requires Decode(payload).Some? && 1 <= number <= MAX_INT32 && |value| < 0x1_0000_0000_0000_0000
    ensures Decode(AppendBytes(payload, number, value)) == Some(Decode(payload).value + [BytesField(number, value)])
  {
    hide DecodeOne, AppendTag, AppendVarint;
    OneBytes(number, value);
    var more := AppendVarint(|value|) + value;
    AppendedOne(payload, AppendTag(number, BYTES) + more, BytesField(number, value));
    assert AppendBytes(payload, number, value) == payload + (AppendTag(number, BYTES) + more);
  }

  lemma AppendedFixed64(payload: Bytes, number: nat, bits: Bytes)
    requires Decode(payload).Some? && 1 <= number <= MAX_INT32 && |bits| == 8
    ensures Decode(AppendFixed64Field(payload, number, bits)) ==
            Some(Decode(payload).value + [Fixed64Field(number, bits)])
  {
    hide DecodeOne, AppendTag;
    var tag := AppendTag(number, FIXED64);
    OneFixed64(number, bits);
    AppendedOne(payload, tag + bits, Fixed64Field(number, bits));
    assert payload + tag + bits == payload + (tag + bits);
  }

  lemma OneFixed64(number: nat, bits: Bytes)
    requires 1 <= number <= MAX_INT32 && |bits| == 8
    ensures var more := AppendTag(number, FIXED64) + bits;
            DecodeOne(more) == Some(Read(Fixed64Field(number, bits), |more|))
  {
    hide Varint, ConsumeTag, FieldValue;
    var tag := AppendTag(number, FIXED64);
    TagInverse(number, FIXED64, bits);
    assert (tag + bits)[|tag|..] == bits && bits[..8] == bits;
  }

  lemma AppendedOne(payload: Bytes, more: Bytes, field: Field)
    requires Decode(payload).Some? && DecodeOne(more) == Some(Read(field, |more|))
    ensures Decode(payload + more) == Some(Decode(payload).value + [field])
  {
    hide DecodeOne;
    DecodeConcat(payload, more);
    assert more[|more|..] == [];
    assert Decode([]) == Some([]);
    assert [field] + [] == [field];
  }

  // ---- Lookups ----

  function LastBytes(fields: seq<Field>, number: nat): Option<Bytes> {
    if fields == [] then None
    else
      var f := fields[|fields| - 1];
      if f.BytesField? && f.number == number then Some(f.bytes) else LastBytes(fields[..|fields| - 1], number)
  }

  function LastVarint(fields: seq<Field>, number: nat): Option<nat> {
    if fields == [] then None
    else
      var f := fields[|fields| - 1];
      if f.VarintField? && f.number == number then Some(f.value) else LastVarint(fields[..|fields| - 1], number)
  }

  function LastFixed64(fields: seq<Field>, number: nat): Option<Bytes> {
    if fields == [] then None
    else
      var f := fields[|fields| - 1];
      if f.Fixed64Field? && f.number == number then Some(f.bits) else LastFixed64(fields[..|fields| - 1], number)
  }

  /** repeatedBytesField. */
  function AllBytes(fields: seq<Field>, number: nat): seq<Bytes> {
    if fields == [] then []
    else
      var rest, f := AllBytes(fields[..|fields| - 1], number), fields[|fields| - 1];
      if f.BytesField? && f.number == number then rest + [f.bytes] else rest
  }

  /** What a field holds is shorter than the payload it was decoded from. */
  lemma {:induction false} FieldsShorter(payload: Bytes)
    requires Decode(payload).Some?
    ensures forall f :: f in Decode(payload).value && f.BytesField? ==> |f.bytes| < |payload|
    ensures forall f :: f in Decode(payload).value && f.Fixed64Field? ==> |f.bits| == 8
    decreases |payload|
  {
    if payload != [] {
      OneShorter(payload);
      hide DecodeOne;
      FieldsShorter(payload[DecodeOne(payload).value.length..]);
    }
  }

  lemma OneShorter(payload: Bytes)
    requires DecodeOne(payload).Some?
    ensures var f := DecodeOne(payload).value.value;
            && (f.BytesField? ==> |f.bytes| < |payload|) && (f.Fixed64Field? ==> |f.bits| == 8)
  {
    hide Varint, FieldValue;
  }

  lemma {:induction false} FoundAmong(fields: seq<Field>, number: nat)
    ensures LastBytes(fields, number).Some? ==> BytesField(number, LastBytes(fields, number).value) in fields
    ensures LastFixed64(fields, number).Some? ==> Fixed64Field(number, LastFixed64(fields, number).value) in fields
    ensures forall b :: b in AllBytes(fields, number) ==> BytesField(number, b) in fields
  {
    if fields != [] {
      FoundAmong(fields[..|fields| - 1], number);
      assert fields == fields[..|fields| - 1] + [fields[|fields| - 1]];
    }
  }

  method LastBytesField(fields: seq<Field>, number: nat) returns (r: Option<Bytes>)
    ensures r == LastBytes(fields, number)
    ensures r.None? <==> forall i :: 0 <= i < |fields| ==> !(fields[i].BytesField? && fields[i].number == number)
    ensures r.Some? ==> exists i :: 0 <= i < |fields| && fields[i] == BytesField(number, r.value)
                                    && forall k :: i < k < |fields| ==>
                                      !(fields[k].BytesField? && fields[k].number == number)
  {
    assert fields[..|fields|] == fields;
    for index := |fields| downto 0
      invariant LastBytes(fields, number) == LastBytes(fields[..index], number)
      invariant forall k :: index <= k < |fields| ==> !(fields[k].BytesField? && fields[k].number == number)
    {
      assert fields[..index + 1][..index] == fields[..index];
      if fields[index].number == number && fields[index].BytesField? {
        return Some(fields[index].bytes);
      }
    }
    r := None;
  }

  method LastVarintField(fields: seq<Field>, number: nat) returns (r: Option<nat>)
    ensures r == LastVarint(fields, number)
    ensures r.None? <==> forall i :: 0 <= i < |fields| ==> !(fields[i].VarintField? && fields[i].number == number)
    ensures r.Some? ==> exists i :: 0 <= i < |fields| && fields[i] == VarintField(number, r.value)
                                    && forall k :: i < k < |fields| ==>
                                      !(fields[k].VarintField? && fields[k].number == number)
  {
    assert fields[..|fields|] == fields;
    for index := |fields| downto 0
      invariant LastVarint(fields, number) == LastVarint(fields[..index], number)
      invariant forall k :: index <= k < |fields| ==> !(fields[k].VarintField? && fields[k].number == number)
    {
      assert fields[..index + 1][..index] == fields[..index];
      if fields[index].number == number && fields[index].VarintField? {
        return Some(fields[index].value);
      }
    }
    r := None;
  }

  lemma {:induction false} LastOfBoth(a: seq<Field>, b: seq<Field>, number: nat)
    ensures LastBytes(a + b, number) ==
            if LastBytes(b, number).Some? then LastBytes(b, number) else LastBytes(a, number)
    ensures LastVarint(a + b, number) ==
            if LastVarint(b, number).Some? then LastVarint(b, number) else LastVarint(a, number)
    decreases |b|
  {
    if b == [] {
      assert a + b == a;
    } else {
      LastOfBoth(a, b[..|b| - 1], number);
      assert (a + b)[..|a + b| - 1] == a + b[..|b| - 1];
    }
  }

  /** Last one wins: of two messages end to end, a lookup finds what the second says, else what the first says. */
  lemma LastOneWins(a: Bytes, b: Bytes, number: nat)
    requires Decode(a).Some? && Decode(b).Some?
    ensures Decode(a + b).Some?
    ensures var (x, y) := (Decode(a).value, Decode(b).value);
            && LastBytes(Decode(a + b).value, number) ==
               (if LastBytes(y, number).Some? then LastBytes(y, number) else LastBytes(x, number))
            && LastVarint(Decode(a + b).value, number) ==
               (if LastVarint(y, number).Some? then LastVarint(y, number) else LastVarint(x, number))
  {
    hide Decode;
    DecodeConcat(a, b);
    LastOfBoth(Decode(a).value, Decode(b).value, number);
  }

  /** An appended bool is what a lookup of its number finds, as 1 or 0, and no other lookup notices it. */
  lemma AppendedBool(payload: Bytes, number: nat, value: bool, other: nat)
    requires Decode(payload).Some? && 1 <= number <= MAX_INT32 && other != number
    ensures Decode(AppendBool(payload, number, value)).Some?
    ensures var before, after := Decode(payload).value, Decode(AppendBool(payload, number, value)).value;
            && LastVarint(after, number) == Some(if value then 1 else 0)
            && LastVarint(after, other) == LastVarint(before, other)
            && LastBytes(after, number) == LastBytes(before, number)
            && LastBytes(after, other) == LastBytes(before, other)
  {
    hide Decode;
    AppendedVarint(payload, number, if value then 1 else 0);
    var before, field := Decode(payload).value, VarintField(number, if value then 1 else 0);
    assert (before + [field])[..|before|] == before;
  }

  /** Fields of other numbers do not matter, wherever they stand and whatever their type. */
  lemma OthersIrrelevant(a: Bytes, unknown: Bytes, b: Bytes, number: nat)
    requires Decode(a).Some? && Decode(unknown).Some? && Decode(b).Some?
    requires forall f :: f in Decode(unknown).value ==> f.number != number
    ensures Decode(a + unknown + b).Some? && Decode(a + b).Some?
    ensures LastBytes(Decode(a + unknown + b).value, number) == LastBytes(Decode(a + b).value, number)
    ensures LastVarint(Decode(a + unknown + b).value, number) == LastVarint(Decode(a + b).value, number)
  {
    hide Decode;
    LastOneWins(a, unknown, number);
    LastOneWins(a + unknown, b, number);
    LastOneWins(a, b, number);
    NoneAmong(Decode(unknown).value, number);
  }

  lemma {:induction false} NoneAmong(fields: seq<Field>, number: nat)
    requires forall f :: f in fields ==> f.number != number
    ensures LastBytes(fields, number) == None && LastVarint(fields, number) == None
  {
    if fields != [] {
      NoneAmong(fields[..|fields| - 1], number);
    }
  }
}
