/** JSON trees as google.protobuf.Value messages, within limits on nesting and on the number of nodes. */
module ProtoValue {
  import opened Common
  import opened Wire
  import Utf8

  const MAX_DEPTH: nat := 64
  const MAX_NODES: nat := 10000

  /** A number is the eight bytes of a float64, the least significant first. */
  datatype Json = Null | Bool(b: bool) | Number(bits: Bytes) | Text(text: Bytes) | List(items: seq<Json>)
    | Object(fields: map<Bytes, Json>)

  /** Neither infinite nor NaN: the exponent is not all ones. */
  predicate Finite(bits: Bytes) { |bits| == 8 && !(bits[7] % 128 == 127 && bits[6] >= 0xF0) }

  // ---- Keys in order ----

  /** Go's order of strings. */
  predicate Before(a: Bytes, b: Bytes) {
    if b == [] then false
    else if a == [] then true
    else a[0] < b[0] || (a[0] == b[0] && Before(a[1..], b[1..]))
  }

  lemma {:induction false} BeforeTotal(a: Bytes, b: Bytes)
    ensures a != b ==> Before(a, b) || Before(b, a)
    ensures !Before(a, a)
    decreases |a|
  {
    if a != [] && b != [] {
      BeforeTotal(a[1..], b[1..]);
      if a[0] == b[0] && a[1..] == b[1..] {
        assert a == [a[0]] + a[1..] == b;
      }
    }
    if a != [] {
      BeforeTotal(a[1..], a[1..]);
    }
  }

  lemma {:induction false} BeforeTransitive(a: Bytes, b: Bytes, c: Bytes)
    requires Before(a, b) && Before(b, c)
    ensures Before(a, c)
    decreases |a|
  {
    if a != [] && a[0] == b[0] == c[0] {
      BeforeTransitive(a[1..], b[1..], c[1..]);
    }
  }

  predicate IsLeast(k: Bytes, keys: set<Bytes>) {
    k in keys && forall other :: other in keys && other != k ==> Before(k, other)
  }

  lemma {:induction false} LeastExists(keys: set<Bytes>)
    requires keys != {}
    ensures exists k :: IsLeast(k, keys)
    decreases |keys|
  {
    var x :| x in keys;
    var rest := keys - {x};
    if rest == {} {
      assert forall other :: other in keys ==> other == x || other in rest;
      assert IsLeast(x, keys);
    } else {
      LeastExists(rest);
      var y :| IsLeast(y, rest);
      BeforeTotal(x, y);
      if Before(x, y) {
        forall other | other in keys && other != x && other != y
          ensures Before(x, other)
        {
          BeforeTransitive(x, y, other);
        }
        assert IsLeast(x, keys);
      } else {
        assert IsLeast(y, keys);
      }
    }
  }

  lemma LeastUnique(keys: set<Bytes>, a: Bytes, b: Bytes)
    requires IsLeast(a, keys) && IsLeast(b, keys)
    ensures a == b
  {
    if a != b {
      BeforeTransitive(a, b, a);
      BeforeTotal(a, a);
    }
  }

  function Least(keys: set<Bytes>): (k: Bytes)
    requires keys != {}
    ensures IsLeast(k, keys)
  {
    LeastExists(keys);
    assert forall a, b :: IsLeast(a, keys) && IsLeast(b, keys) ==> a == b by {
      forall a, b | IsLeast(a, keys) && IsLeast(b, keys) ensures a == b { LeastUnique(keys, a, b); }
    }
    var k :| IsLeast(k, keys);
    k
  }

  /** sort.Strings on the keys of a map. */
  function Sorted(keys: set<Bytes>): (s: seq<Bytes>)
    ensures forall k :: k in s <==> k in keys
    decreases |keys|
  {
    if keys == {} then []
    else
      var k := Least(keys);
      assert forall x :: x in [k] + Sorted(keys - {k}) <==> x == k || x in Sorted(keys - {k});
      [k] + Sorted(keys - {k})
  }

  lemma {:induction false} SortedDistinct(keys: set<Bytes>)
    ensures forall i, j :: 0 <= i < j < |Sorted(keys)| ==>
              Sorted(keys)[i] != Sorted(keys)[j] && Before(Sorted(keys)[i], Sorted(keys)[j])
    decreases |keys|
  {
    if keys != {} {
      var k := Least(keys);
      var rest := Sorted(keys - {k});
      SortedDistinct(keys - {k});
      assert forall i :: 0 <= i < |rest| ==> rest[i] in rest;
    }
  }

  // ---- The encoder ----

  /** The messages of a list or a struct: each value is field 1. */
  function AppendAll(pieces: seq<Bytes>): Bytes {
    if pieces == [] then [] else AppendBytes(AppendAll(pieces[..|pieces| - 1]), 1, pieces[|pieces| - 1])
  }

  function EntryOf(key: Bytes, value: Bytes): Bytes { AppendBytes(AppendBytes([], 1, key), 2, value) }

  /** The encoding of a value at a depth, and the nodes counted after it. */
  function EncodeValue(v: Json, depth: nat, nodes: nat): Option<(Bytes, nat)>
    decreases v, 1, 0
  {
    if depth > MAX_DEPTH || nodes + 1 > MAX_NODES then None
    else
      match v
      case Null => Some((AppendVarintField([], 1, 0), nodes + 1))
      case Bool(b) => Some((AppendVarintField([], 4, if b then 1 else 0), nodes + 1))
      case Text(text) => if Utf8.Valid(text) then Some((AppendBytes([], 3, text), nodes + 1)) else None
      case Number(bits) => if Finite(bits) then Some((AppendFixed64Field([], 2, bits), nodes + 1)) else None
      case List(items) =>
        (match EncodeItems(items, depth + 1, nodes + 1)
         case None => None
         case Some((pieces, n)) => Some((AppendBytes([], 6, AppendAll(pieces)), n)))
      case Object(fields) =>
        if exists key :: key in fields && !Utf8.Valid(key) then None
        else
          match EncodeEntries(v, Sorted(fields.Keys), depth + 1, nodes + 1)
          case None => None
          case Some((pieces, n)) => Some((AppendBytes([], 5, AppendAll(pieces)), n))
  }

  function EncodeItems(items: seq<Json>, depth: nat, nodes: nat): Option<(seq<Bytes>, nat)>
    decreases items, 0, 0
  {
    if items == [] then Some(([], nodes))
    else
      match EncodeItems(items[..|items| - 1], depth, nodes)
      case None => None
      case Some((pieces, n)) =>
        match EncodeValue(items[|items| - 1], depth, n)
        case None => None
        case Some((piece, m)) => Some((pieces + [piece], m))
  }

  function EncodeEntries(v: Json, keys: seq<Bytes>, depth: nat, nodes: nat): Option<(seq<Bytes>, nat)>
    requires v.Object? && forall k :: k in keys ==> k in v.fields
    decreases v, 0, |keys|
  {
    if keys == [] then Some(([], nodes))
    else
      var key := keys[|keys| - 1];
      match EncodeEntries(v, keys[..|keys| - 1], depth, nodes)
      case None => None
      case Some((pieces, n)) =>
        match EncodeValue(v.fields[key], depth, n)
        case None => None
        case Some((piece, m)) => Some((pieces + [EntryOf(key, piece)], m))
  }

  // ---- The decoder ----

  /** How many of the six kinds of value a message has. */
  function Kinds(fields: seq<Field>): nat {
    (if LastVarint(fields, 1).Some? then 1 else 0) + (if LastFixed64(fields, 2).Some? then 1 else 0)
    + (if LastBytes(fields, 3).Some? then 1 else 0) + (if LastVarint(fields, 4).Some? then 1 else 0)
    + (if LastBytes(fields, 5).Some? then 1 else 0) + (if LastBytes(fields, 6).Some? then 1 else 0)
  }

  function DecodeValue(payload: Bytes, depth: nat, nodes: nat): Option<(Json, nat)>
    decreases |payload|, 2, 0
  {
    if depth > MAX_DEPTH || nodes + 1 > MAX_NODES then None
    else
      match Decode(payload)
      case None => None
      case Some(fields) =>
        FieldsShorter(payload);
        FoundAmong(fields, 5);
        FoundAmong(fields, 6);
        if Kinds(fields) != 1 then None
        else if LastVarint(fields, 1).Some? then
          (if LastVarint(fields, 1).value != 0 then None else Some((Null, nodes + 1)))
        else if LastFixed64(fields, 2).Some? then
          (var bits := LastFixed64(fields, 2).value; if Finite(bits) then Some((Number(bits), nodes + 1)) else None)
        else if LastBytes(fields, 3).Some? then
          (var text := LastBytes(fields, 3).value; if Utf8.Valid(text) then Some((Text(text), nodes + 1)) else None)
        else if LastVarint(fields, 4).Some? then
          (var raw := LastVarint(fields, 4).value; if raw > 1 then None else Some((Bool(raw == 1), nodes + 1)))
        else if LastBytes(fields, 5).Some? then DecodeStruct(LastBytes(fields, 5).value, depth + 1, nodes + 1)
        else if LastBytes(fields, 6).Some? then DecodeList(LastBytes(fields, 6).value, depth + 1, nodes + 1)
        else None
  }

  function DecodeList(payload: Bytes, depth: nat, nodes: nat): Option<(Json, nat)>
    decreases |payload|, 1, 0
  {
    match Decode(payload)
    case None => None
    case Some(fields) =>
      PiecesShorter(payload);
      match DecodeItems(AllBytes(fields, 1), |payload|, depth, nodes)
      case None => None
      case Some((items, n)) => Some((List(items), n))
  }

  function DecodeItems(pieces: seq<Bytes>, size: nat, depth: nat, nodes: nat): Option<(seq<Json>, nat)>
    requires forall piece :: piece in pieces ==> |piece| < size
    decreases size, 0, |pieces|
  {
    if pieces == [] then Some(([], nodes))
    else
      match DecodeItems(pieces[..|pieces| - 1], size, depth, nodes)
      case None => None
      case Some((items, n)) =>
        match DecodeValue(pieces[|pieces| - 1], depth, n)
        case None => None
        case Some((item, m)) => Some((items + [item], m))
  }

  function DecodeStruct(payload: Bytes, depth: nat, nodes: nat): Option<(Json, nat)>
    decreases |payload|, 1, 0
  {
    match Decode(payload)
    case None => None
    case Some(fields) =>
      PiecesShorter(payload);
      match DecodeEntries(AllBytes(fields, 1), |payload|, depth, nodes)
      case None => None
      case Some((entries, n)) => Some((Object(entries), n))
  }

  function DecodeEntries(pieces: seq<Bytes>, size: nat, depth: nat, nodes: nat): Option<(map<Bytes, Json>, nat)>
    requires forall piece :: piece in pieces ==> |piece| < size
    decreases size, 0, |pieces|
  {
    if pieces == [] then Some((map[], nodes))
    else
      match DecodeEntries(pieces[..|pieces| - 1], size, depth, nodes)
      case None => None
      case Some((entries, n)) =>
        match KeyAndValue(pieces[|pieces| - 1])
        case None => None
        case Some((key, value)) =>
          if key in entries then None
          else
            match DecodeValue(value, depth, n)
            case None => None
            case Some((v, m)) => Some((entries[key := v], m))
  }

  /** The key and the value payload of one struct entry. */
  function KeyAndValue(entry: Bytes): (r: Option<(Bytes, Bytes)>)
    ensures r.Some? ==> |r.value.1| < |entry|
  {
    match Decode(entry)
    case None => None
    case Some(fields) =>
      FieldsShorter(entry);
      FoundAmong(fields, 2);
      if LastBytes(fields, 1).Some? && LastBytes(fields, 2).Some? && Utf8.Valid(LastBytes(fields, 1).value) then
        Some((LastBytes(fields, 1).value, LastBytes(fields, 2).value))
      else None
  }

  lemma PiecesShorter(payload: Bytes)
    requires Decode(payload).Some?
    ensures forall piece :: piece in AllBytes(Decode(payload).value, 1) ==> |piece| < |payload|
  {
    hide Decode;
    FieldsShorter(payload);
    FoundAmong(Decode(payload).value, 1);
  }

  // ---- What a tree weighs ----

  function Nodes(v: Json): nat
    decreases v, 1, 0
  {
    match v
    case List(items) => 1 + NodesOf(items)
    case Object(fields) => 1 + NodesIn(v, Sorted(fields.Keys))
    case _ => 1
  }

  function NodesOf(items: seq<Json>): nat
    decreases items, 0, 0
  {
    if items == [] then 0 else NodesOf(items[..|items| - 1]) + Nodes(items[|items| - 1])
  }

  function NodesIn(v: Json, keys: seq<Bytes>): nat
    requires v.Object? && forall k :: k in keys ==> k in v.fields
    decreases v, 0, |keys|
  {
    if keys == [] then 0 else NodesIn(v, keys[..|keys| - 1]) + Nodes(v.fields[keys[|keys| - 1]])
  }

  /** Whether a tree, at a depth, stays within the nesting limit. */
  predicate Shallow(v: Json, depth: nat)
    decreases v
  {
    && depth <= MAX_DEPTH
    && match v
       case List(items) => forall i :: 0 <= i < |items| ==> Shallow(items[i], depth + 1)
       case Object(fields) => forall k :: k in fields ==> Shallow(fields[k], depth + 1)
       case _ => true
  }

  /** Strings and keys are valid UTF-8, and numbers are finite. */
  predicate WellFormed(v: Json)
    decreases v
  {
    match v
    case Number(bits) => Finite(bits)
    case Text(text) => Utf8.Valid(text)
    case List(items) => forall i :: 0 <= i < |items| ==> WellFormed(items[i])
    case Object(fields) => forall k :: k in fields ==> Utf8.Valid(k) && WellFormed(fields[k])
    case _ => true
  }

  // ---- What the encoder accepts ----

  /** The encoder takes exactly the well-formed trees within both limits, and counts their nodes. */
  lemma {:induction false} EncodeAccepts(v: Json, depth: nat, nodes: nat)
    ensures EncodeValue(v, depth, nodes).Some? <==> WellFormed(v) && Shallow(v, depth) && nodes + Nodes(v) <= MAX_NODES
    ensures EncodeValue(v, depth, nodes).Some? ==> EncodeValue(v, depth, nodes).value.1 == nodes + Nodes(v)
    decreases v, 1, 0
  {
    hide AppendBytes, AppendVarintField, AppendFixed64Field, AppendAll, Sorted;
    if depth <= MAX_DEPTH && nodes + 1 <= MAX_NODES {
      match v
      case List(items) => ItemsAccepted(items, depth + 1, nodes + 1);
      case Object(fields) => EntriesAccepted(v, Sorted(fields.Keys), depth + 1, nodes + 1);
      case _ =>
    }
  }

  lemma {:induction false} ItemsAccepted(items: seq<Json>, depth: nat, nodes: nat)
    requires nodes <= MAX_NODES
    ensures EncodeItems(items, depth, nodes).Some? <==>
              && (forall i :: 0 <= i < |items| ==> WellFormed(items[i]) && Shallow(items[i], depth))
              && nodes + NodesOf(items) <= MAX_NODES
    ensures EncodeItems(items, depth, nodes).Some? ==>
              EncodeItems(items, depth, nodes).value.1 == nodes + NodesOf(items)
    decreases items, 0, 0
  {
    if items != [] {
      var front, last := items[..|items| - 1], items[|items| - 1];
      ItemsAccepted(front, depth, nodes);
      EncodeAccepts(last, depth, nodes + NodesOf(front));
      hide EncodeValue, WellFormed, Shallow, Nodes;
      assert forall i :: 0 <= i < |front| ==> front[i] == items[i];
    }
  }

  lemma {:induction false} EntriesAccepted(v: Json, keys: seq<Bytes>, depth: nat, nodes: nat)
    requires nodes <= MAX_NODES && v.Object? && forall k :: k in keys ==> k in v.fields
    ensures EncodeEntries(v, keys, depth, nodes).Some? <==>
              && (forall k :: k in keys ==> WellFormed(v.fields[k]) && Shallow(v.fields[k], depth))
              && nodes + NodesIn(v, keys) <= MAX_NODES
    ensures EncodeEntries(v, keys, depth, nodes).Some? ==>
              EncodeEntries(v, keys, depth, nodes).value.1 == nodes + NodesIn(v, keys)
    decreases v, 0, |keys|
  {
    if keys != [] {
      var front, last := keys[..|keys| - 1], keys[|keys| - 1];
      EntriesAccepted(v, front, depth, nodes);
      EncodeAccepts(v.fields[last], depth, nodes + NodesIn(v, front));
      hide EncodeValue, WellFormed, Shallow, Nodes, EntryOf;
      assert forall k :: k in keys <==> k in front || k == last;
    }
  }

  // ---- Round trip ----

  const WORD: nat := 0x1_0000_0000_0000_0000

  lemma LookupSingle(f: Field, number: nat)
    ensures LastBytes([f], number) == if f.BytesField? && f.number == number then Some(f.bytes) else None
    ensures LastVarint([f], number) == if f.VarintField? && f.number == number then Some(f.value) else None
    ensures LastFixed64([f], number) == if f.Fixed64Field? && f.number == number then Some(f.bits) else None
  {
  }

  /** What the decoder makes of a message with one field. */
  lemma DecodeSingle(payload: Bytes, f: Field, depth: nat, nodes: nat)
    requires Decode(payload) == Some([f]) && depth <= MAX_DEPTH && nodes + 1 <= MAX_NODES
    ensures DecodeValue(payload, depth, nodes) ==
            match f
            case VarintField(1, raw) => (if raw != 0 then None else Some((Null, nodes + 1)))
            case Fixed64Field(2, bits) => (if Finite(bits) then Some((Number(bits), nodes + 1)) else None)
            case BytesField(3, text) => (if Utf8.Valid(text) then Some((Text(text), nodes + 1)) else None)
            case VarintField(4, raw) => (if raw > 1 then None else Some((Bool(raw == 1), nodes + 1)))
            case BytesField(5, inner) => DecodeStruct(inner, depth + 1, nodes + 1)
            case BytesField(6, inner) => DecodeList(inner, depth + 1, nodes + 1)
            case _ => None
  {
    hide Decode, LastBytes, LastVarint, LastFixed64, DecodeStruct, DecodeList, Finite, Utf8.Valid;
    LookupSingle(f, 1);
    LookupSingle(f, 2);
    LookupSingle(f, 3);
    LookupSingle(f, 4);
    LookupSingle(f, 5);
    LookupSingle(f, 6);
  }

  lemma AppendBytesSize(payload: Bytes, number: nat, value: Bytes)
    ensures |payload| < |AppendBytes(payload, number, value)| && |value| < |AppendBytes(payload, number, value)|
  {
  }

  lemma {:induction false} AppendAllSize(pieces: seq<Bytes>)
    ensures forall piece :: piece in pieces ==> |piece| < |AppendAll(pieces)|
  {
    if pieces != [] {
      AppendAllSize(pieces[..|pieces| - 1]);
      AppendBytesSize(AppendAll(pieces[..|pieces| - 1]), 1, pieces[|pieces| - 1]);
    }
  }

  lemma {:induction false} AppendAllDecodes(pieces: seq<Bytes>)
    requires forall piece :: piece in pieces ==> |piece| < WORD
    ensures Decode(AppendAll(pieces)).Some? && AllBytes(Decode(AppendAll(pieces)).value, 1) == pieces
  {
    hide Decode, AppendBytes;
    if pieces == [] {
      DecodeNothing();
    } else {
      var front, last := pieces[..|pieces| - 1], pieces[|pieces| - 1];
      AppendAllDecodes(front);
      AppendedBytes(AppendAll(front), 1, last);
      var fields := Decode(AppendAll(front)).value;
      assert (fields + [BytesField(1, last)])[..|fields|] == fields;
      assert front + [last] == pieces;
    }
  }

  lemma DecodeNothing()
    ensures Decode([]) == Some([])
  {
  }

  lemma OneField(number: nat, value: Bytes)
    requires 1 <= number <= MAX_INT32 && |value| < WORD
    ensures Decode(AppendBytes([], number, value)) == Some([BytesField(number, value)])
  {
    hide Decode, AppendBytes;
    DecodeNothing();
    AppendedBytes([], number, value);
    assert [] + [BytesField(number, value)] == [BytesField(number, value)];
  }

  lemma EntryDecodes(key: Bytes, value: Bytes)
    requires Utf8.Valid(key) && |EntryOf(key, value)| < WORD
    ensures KeyAndValue(EntryOf(key, value)) == Some((key, value))
  {
    hide Decode, Utf8.Valid, AppendBytes;
    var first := AppendBytes([], 1, key);
    AppendBytesSize([], 1, key);
    AppendBytesSize(first, 2, value);
    OneField(1, key);
    AppendedBytes(first, 2, value);
    LastOfBoth([BytesField(1, key)], [BytesField(2, value)], 1);
    LastOfBoth([BytesField(1, key)], [BytesField(2, value)], 2);
    LookupSingle(BytesField(1, key), 1);
    LookupSingle(BytesField(2, value), 1);
    LookupSingle(BytesField(2, value), 2);
  }

  lemma EntrySize(key: Bytes, value: Bytes)
    ensures |value| < |EntryOf(key, value)|
  {
    AppendBytesSize(AppendBytes([], 1, key), 2, value);
  }

  /** Whatever the encoder accepts, the decoder accepts and returns unchanged, with the same count of nodes. */
  lemma {:induction false} RoundTrip(v: Json, depth: nat, nodes: nat)
    requires EncodeValue(v, depth, nodes).Some? && |EncodeValue(v, depth, nodes).value.0| < WORD
    ensures var (b, n) := EncodeValue(v, depth, nodes).value; DecodeValue(b, depth, nodes) == Some((v, n))
    decreases v, 1, 0
  {
    hide Decode, DecodeValue, AppendBytes, AppendVarintField, AppendFixed64Field, Sorted, DecodeList, DecodeStruct;
    var (b, n) := EncodeValue(v, depth, nodes).value;
    DecodeNothing();
    match v
    case Null =>
      AppendedVarint([], 1, 0);
      assert [] + [VarintField(1, 0)] == [VarintField(1, 0)];
      DecodeSingle(b, VarintField(1, 0), depth, nodes);
    case Bool(x) =>
      var f := VarintField(4, if x then 1 else 0);
      AppendedVarint([], 4, f.value);
      assert [] + [f] == [f];
      DecodeSingle(b, f, depth, nodes);
    case Number(bits) =>
      AppendedFixed64([], 2, bits);
      assert [] + [Fixed64Field(2, bits)] == [Fixed64Field(2, bits)];
      DecodeSingle(b, Fixed64Field(2, bits), depth, nodes);
    case Text(text) =>
      AppendBytesSize([], 3, text);
      OneField(3, text);
      DecodeSingle(b, BytesField(3, text), depth, nodes);
    case List(items) => ListRoundTrip(v, depth, nodes);
    case Object(fields) => ObjectRoundTrip(v, depth, nodes);
  }

  lemma {:induction false} ListRoundTrip(v: Json, depth: nat, nodes: nat)
    requires v.List? && EncodeValue(v, depth, nodes).Some? && |EncodeValue(v, depth, nodes).value.0| < WORD
    ensures var (b, n) := EncodeValue(v, depth, nodes).value; DecodeValue(b, depth, nodes) == Some((v, n))
    decreases v, 0, 1
  {
    hide Decode, DecodeValue, AppendBytes, EncodeItems;
    var (b, n) := EncodeValue(v, depth, nodes).value;
    var pieces := EncodeItems(v.items, depth + 1, nodes + 1).value.0;
    var list := AppendAll(pieces);
    AppendBytesSize([], 6, list);
    AppendAllSize(pieces);
    OneField(6, list);
    DecodeSingle(b, BytesField(6, list), depth, nodes);
    AppendAllDecodes(pieces);
    ItemsRoundTrip(v.items, depth + 1, nodes + 1, |list|);
  }

  lemma {:induction false} ItemsRoundTrip(items: seq<Json>, depth: nat, nodes: nat, size: nat)
    requires EncodeItems(items, depth, nodes).Some? && size <= WORD
    requires forall piece :: piece in EncodeItems(items, depth, nodes).value.0 ==> |piece| < size
    ensures var (pieces, n) := EncodeItems(items, depth, nodes).value;
            DecodeItems(pieces, size, depth, nodes) == Some((items, n))
    decreases items, 0, 0
  {
    hide EncodeValue, DecodeValue;
    if items != [] {
      var front, last := items[..|items| - 1], items[|items| - 1];
      var (pieces, n) := EncodeItems(front, depth, nodes).value;
      var (piece, m) := EncodeValue(last, depth, n).value;
      assert piece in EncodeItems(items, depth, nodes).value.0;
      ItemsRoundTrip(front, depth, nodes, size);
      RoundTrip(last, depth, n);
      assert (pieces + [piece])[..|pieces|] == pieces;
      assert front + [last] == items;
    }
  }

  lemma {:induction false} ObjectRoundTrip(v: Json, depth: nat, nodes: nat)
    requires v.Object? && EncodeValue(v, depth, nodes).Some? && |EncodeValue(v, depth, nodes).value.0| < WORD
    ensures var (b, n) := EncodeValue(v, depth, nodes).value; DecodeValue(b, depth, nodes) == Some((v, n))
    decreases v, 0, |Sorted(v.fields.Keys)| + 1
  {
    hide Decode, DecodeValue, AppendBytes, EncodeEntries, Sorted;
    var (b, n) := EncodeValue(v, depth, nodes).value;
    var keys := Sorted(v.fields.Keys);
    var pieces := EncodeEntries(v, keys, depth + 1, nodes + 1).value.0;
    var struct := AppendAll(pieces);
    AppendBytesSize([], 5, struct);
    AppendAllSize(pieces);
    OneField(5, struct);
    DecodeSingle(b, BytesField(5, struct), depth, nodes);
    AppendAllDecodes(pieces);
    SortedDistinct(v.fields.Keys);
    EntriesRoundTrip(v, keys, depth + 1, nodes + 1, |struct|);
    assert (map k | k in keys :: v.fields[k]) == v.fields;
  }

  lemma {:induction false} EntriesRoundTrip(v: Json, keys: seq<Bytes>, depth: nat, nodes: nat, size: nat)
    requires v.Object? && (forall k :: k in keys ==> k in v.fields && Utf8.Valid(k)) && size <= WORD
    requires forall i, j :: 0 <= i < j < |keys| ==> keys[i] != keys[j]
    requires EncodeEntries(v, keys, depth, nodes).Some?
    requires forall piece :: piece in EncodeEntries(v, keys, depth, nodes).value.0 ==> |piece| < size
    ensures var (pieces, n) := EncodeEntries(v, keys, depth, nodes).value;
            DecodeEntries(pieces, size, depth, nodes) == Some((map k | k in keys :: v.fields[k], n))
    decreases v, 0, |keys|
  {
    hide EncodeValue, DecodeValue, KeyAndValue, EntryOf, AppendBytes;
    if keys != [] {
      var front, last := keys[..|keys| - 1], keys[|keys| - 1];
      var (pieces, n) := EncodeEntries(v, front, depth, nodes).value;
      var (value, m) := EncodeValue(v.fields[last], depth, n).value;
      var entry := EntryOf(last, value);
      assert entry in EncodeEntries(v, keys, depth, nodes).value.0;
      EntriesRoundTrip(v, front, depth, nodes, size);
      EntrySize(last, value);
      RoundTrip(v.fields[last], depth, n);
      EntryDecodes(last, value);
      assert (pieces + [entry])[..|pieces|] == pieces;
      assert last !in front;
      assert (map k | k in front :: v.fields[k])[last := v.fields[last]] == map k | k in keys :: v.fields[k];
    }
  }

  // ---- What the decoder accepts ----

  predicate Distinct(keys: seq<Bytes>) { forall i, j :: 0 <= i < j < |keys| ==> keys[i] != keys[j] }

  lemma {:induction false} NodesFrame(v: Json, w: Json, keys: seq<Bytes>)
    requires v.Object? && w.Object? && forall k :: k in keys ==>
               k in v.fields && k in w.fields && v.fields[k] == w.fields[k]
    ensures NodesIn(v, keys) == NodesIn(w, keys)
    decreases |keys|
  {
    hide Nodes;
    if keys != [] {
      NodesFrame(v, w, keys[..|keys| - 1]);
    }
  }

  /** A key may be counted first. */
  lemma {:induction false} NodesExtract(v: Json, keys: seq<Bytes>, i: nat)
    requires v.Object? && (forall k :: k in keys ==> k in v.fields) && i < |keys|
    ensures NodesIn(v, keys) == NodesIn(v, keys[..i] + keys[i + 1..]) + Nodes(v.fields[keys[i]])
    decreases |keys|
  {
    hide Nodes;
    var n := |keys| - 1;
    if i < n {
      NodesExtract(v, keys[..n], i);
      var without := keys[..i] + keys[i + 1..];
      assert without[..|without| - 1] == keys[..n][..i] + keys[..n][i + 1..];
    } else {
      assert keys[..i] + keys[i + 1..] == keys[..n];
    }
  }

  /** The count does not depend on the order of the keys. */
  lemma {:induction false} NodesOrder(v: Json, a: seq<Bytes>, b: seq<Bytes>)
    requires v.Object? && Distinct(a) && Distinct(b)
    requires (forall k :: k in a ==> k in v.fields) && (forall k :: k in a <==> k in b)
    ensures NodesIn(v, a) == NodesIn(v, b)
    decreases |a|
  {
    hide Nodes;
    if a == [] {
      NonEmptyHas(b);
    } else {
      var last := a[|a| - 1];
      assert last in b;
      var i :| 0 <= i < |b| && b[i] == last;
      var front, rest := a[..|a| - 1], b[..i] + b[i + 1..];
      assert forall k :: k in front <==> k in a && k != last;
      assert forall k :: k in rest <==> k in b && k != last by { RestOf(b, i); }
      NodesOrder(v, front, rest);
      NodesExtract(v, b, i);
    }
  }

  lemma NonEmptyHas(keys: seq<Bytes>)
    ensures keys != [] ==> exists k :: k in keys
  {
    if keys != [] {
      assert keys[0] in keys;
    }
  }

  lemma RestOf(keys: seq<Bytes>, i: nat)
    requires Distinct(keys) && i < |keys|
    ensures Distinct(keys[..i] + keys[i + 1..])
    ensures forall k :: k in keys[..i] + keys[i + 1..] <==> k in keys && k != keys[i]
  {
    var rest := keys[..i] + keys[i + 1..];
    forall k | k in keys && k != keys[i]
      ensures k in rest
    {
      var j :| 0 <= j < |keys| && keys[j] == k;
      assert rest[if j < i then j else j - 1] == k;
    }
  }

  /**
   The decoder accepts only well-formed trees within both limits, and counts their nodes: just what the encoder accepts.
   */
  lemma {:induction false} DecodeBounded(payload: Bytes, depth: nat, nodes: nat)
    requires DecodeValue(payload, depth, nodes).Some?
    ensures var (v, n) := DecodeValue(payload, depth, nodes).value;
            WellFormed(v) && Shallow(v, depth) && n == nodes + Nodes(v) && n <= MAX_NODES
    decreases |payload|, 2
  {
    hide Decode, Sorted, LastVarint, LastFixed64, LastBytes, DecodeList, DecodeStruct;
    var fields := Decode(payload).value;
    FieldsShorter(payload);
    FoundAmong(fields, 5);
    FoundAmong(fields, 6);
    var scalar := LastVarint(fields, 1).Some? || LastFixed64(fields, 2).Some? || LastBytes(fields, 3).Some?;
    if !scalar && LastVarint(fields, 4).None? {
      if LastBytes(fields, 5).Some? {
        StructBounded(LastBytes(fields, 5).value, depth + 1, nodes + 1);
      } else {
        ListBounded(LastBytes(fields, 6).value, depth + 1, nodes + 1);
      }
    }
  }

  lemma {:induction false} ListBounded(payload: Bytes, depth: nat, nodes: nat)
    requires DecodeList(payload, depth, nodes).Some? && nodes <= MAX_NODES
    ensures var (v, n) := DecodeList(payload, depth, nodes).value;
            && v.List? && (forall i :: 0 <= i < |v.items| ==> WellFormed(v.items[i]) && Shallow(v.items[i], depth))
            && n == nodes + NodesOf(v.items) && n <= MAX_NODES
    decreases |payload|, 1
  {
    hide Decode, DecodeItems;
    PiecesShorter(payload);
    ItemsBounded(AllBytes(Decode(payload).value, 1), |payload|, depth, nodes);
  }

  lemma {:induction false} ItemsBounded(pieces: seq<Bytes>, size: nat, depth: nat, nodes: nat)
    requires (forall piece :: piece in pieces ==> |piece| < size) && nodes <= MAX_NODES
    requires DecodeItems(pieces, size, depth, nodes).Some?
    ensures var (items, n) := DecodeItems(pieces, size, depth, nodes).value;
            && (forall i :: 0 <= i < |items| ==> WellFormed(items[i]) && Shallow(items[i], depth))
            && n == nodes + NodesOf(items) && n <= MAX_NODES
    decreases size, 0, |pieces|
  {
    hide DecodeValue, WellFormed, Shallow, Nodes;
    if pieces != [] {
      var front, last := pieces[..|pieces| - 1], pieces[|pieces| - 1];
      ItemsBounded(front, size, depth, nodes);
      var (items, n) := DecodeItems(front, size, depth, nodes).value;
      DecodeBounded(last, depth, n);
      var item := DecodeValue(last, depth, n).value.0;
      assert (items + [item])[..|items|] == items;
    }
  }

  lemma {:induction false} StructBounded(payload: Bytes, depth: nat, nodes: nat)
    requires DecodeStruct(payload, depth, nodes).Some? && nodes <= MAX_NODES
    ensures var (v, n) := DecodeStruct(payload, depth, nodes).value;
            && v.Object? && (forall k :: k in v.fields ==>
              Utf8.Valid(k) && WellFormed(v.fields[k]) && Shallow(v.fields[k], depth))
            && n == nodes + NodesIn(v, Sorted(v.fields.Keys)) && n <= MAX_NODES
    decreases |payload|, 1
  {
    hide Decode, DecodeEntries;
    PiecesShorter(payload);
    var keys := EntriesBounded(AllBytes(Decode(payload).value, 1), |payload|, depth, nodes);
    var v := DecodeStruct(payload, depth, nodes).value.0;
    SortedDistinct(v.fields.Keys);
    NodesOrder(v, keys, Sorted(v.fields.Keys));
  }

  lemma {:induction false} EntriesBounded(pieces: seq<Bytes>, size: nat, depth: nat, nodes: nat)
    returns (keys: seq<Bytes>)
    requires (forall piece :: piece in pieces ==> |piece| < size) && nodes <= MAX_NODES
    requires DecodeEntries(pieces, size, depth, nodes).Some?
    ensures var (entries, n) := DecodeEntries(pieces, size, depth, nodes).value;
            && Distinct(keys) && (forall k :: k in keys <==> k in entries)
            && (forall k :: k in entries ==> Utf8.Valid(k) && WellFormed(entries[k]) && Shallow(entries[k], depth))
            && n == nodes + NodesIn(Object(entries), keys) && n <= MAX_NODES
    decreases size, 0, |pieces|
  {
    hide DecodeValue, WellFormed, Shallow, Nodes, KeyAndValue;
    if pieces == [] {
      keys := [];
    } else {
      var front, last := pieces[..|pieces| - 1], pieces[|pieces| - 1];
      var before := EntriesBounded(front, size, depth, nodes);
      var (entries, n) := DecodeEntries(front, size, depth, nodes).value;
      var (key, value) := KeyAndValue(last).value;
      DecodeBounded(value, depth, n);
      KeyValid(last);
      var v := DecodeValue(value, depth, n).value.0;
      keys := before + [key];
      assert keys[..|before|] == before;
      NodesFrame(Object(entries), Object(entries[key := v]), before);
    }
  }

  lemma KeyValid(entry: Bytes)
    requires KeyAndValue(entry).Some?
    ensures Utf8.Valid(KeyAndValue(entry).value.0)
  {
    hide Decode;
  }

  /** So what was decoded can be encoded, and comes back the same when that is decoded again. */
  lemma DecodeEncodeDecode(payload: Bytes, depth: nat, nodes: nat)
    requires DecodeValue(payload, depth, nodes).Some?
    ensures var (v, n) := DecodeValue(payload, depth, nodes).value;
            && EncodeValue(v, depth, nodes).Some? && EncodeValue(v, depth, nodes).value.1 == n
            && var b := EncodeValue(v, depth, nodes).value.0;
            (|b| < WORD ==> DecodeValue(b, depth, nodes) == Some((v, n)))
  {
    hide DecodeValue, EncodeValue, WellFormed, Shallow, Nodes;
    var (v, n) := DecodeValue(payload, depth, nodes).value;
    DecodeBounded(payload, depth, nodes);
    EncodeAccepts(v, depth, nodes);
    if |EncodeValue(v, depth, nodes).value.0| < WORD {
      RoundTrip(v, depth, nodes);
    }
  }

  // ---- The decoder and the encoder as they run, with a budget that all nodes of a tree share ----

  class Budget {
    var nodes: nat

    constructor ()
      ensures nodes == 0
    {
      nodes := 0;
    }
  }

  /** A result and the budget after it are as the function says; after a failure the budget does not matter. */
  predicate Agrees<T(==)>(r: Result<T>, nodes: nat, said: Option<(T, nat)>) {
    match said case None => r.Error? case Some((v, n)) => r == Ok(v) && nodes == n
  }

  method DecodeProtoValue(payload: Bytes, depth: nat, budget: Budget) returns (r: Result<Json>)
    modifies budget
    ensures Agrees(r, budget.nodes, DecodeValue(payload, depth, old(budget.nodes)))
    decreases |payload|, 2, 0
  {
    hide Decode, LastVarint, LastFixed64, LastBytes, DecodeStruct, DecodeList, Finite, Utf8.Valid;
    if depth > MAX_DEPTH {
      return Error;
    }
    budget.nodes := budget.nodes + 1;
    if budget.nodes > MAX_NODES {
      return Error;
    }
    var decoded := DecodeWireFields(payload);
    if decoded.None? {
      return Error;
    }
    var fields := decoded.value;
    FieldsShorter(payload);
    FoundAmong(fields, 5);
    FoundAmong(fields, 6);
    var kinds, value := 0, Null;
    var nullField := LastVarintField(fields, 1);
    if nullField.Some? {
      kinds := kinds + 1;
      if nullField.value != 0 {
        return Error;
      }
    }
    var number := LastFixed64(fields, 2);
    if number.Some? {
      kinds := kinds + 1;
      if !Finite(number.value) {
        return Error;
      }
      value := Number(number.value);
    }
    var text := LastBytesField(fields, 3);
    if text.Some? {
      kinds := kinds + 1;
      if !Utf8.Valid(text.value) {
        return Error;
      }
      value := Text(text.value);
    }
    var boolField := LastVarintField(fields, 4);
    if boolField.Some? {
      kinds := kinds + 1;
      if boolField.value > 1 {
        return Error;
      }
      value := Bool(boolField.value == 1);
    }
    var struct := LastBytesField(fields, 5);
    if struct.Some? {
      kinds := kinds + 1;
      var inner := DecodeProtoStruct(struct.value, depth + 1, budget);
      if inner.Error? {
        return Error;
      }
      value := inner.value;
    }
    var list := LastBytesField(fields, 6);
    if list.Some? {
      kinds := kinds + 1;
      var inner := DecodeProtoList(list.value, depth + 1, budget);
      if inner.Error? {
        return Error;
      }
      value := inner.value;
    }
    if kinds != 1 {
      return Error;
    }
    r := Ok(value);
  }

  method DecodeProtoList(payload: Bytes, depth: nat, budget: Budget) returns (r: Result<Json>)
    modifies budget
    ensures Agrees(r, budget.nodes, DecodeList(payload, depth, old(budget.nodes)))
    decreases |payload|, 1, 0
  {
    hide Decode, DecodeValue, AllBytes;
    var decoded := DecodeWireFields(payload);
    if decoded.None? {
      return Error;
    }
    PiecesShorter(payload);
    var values, result := AllBytes(decoded.value, 1), [];
    for i := 0 to |values|
      invariant DecodeItems(values[..i], |payload|, depth, old(budget.nodes)) == Some((result, budget.nodes))
    {
      assert values[..i + 1][..i] == values[..i];
      var item := DecodeProtoValue(values[i], depth, budget);
      if item.Error? {
        ItemsFail(values, i + 1, |payload|, depth, old(budget.nodes));
        return Error;
      }
      result := result + [item.value];
    }
    assert values[..|values|] == values;
    r := Ok(List(result));
  }

  lemma {:induction false} ItemsFail(pieces: seq<Bytes>, n: nat, size: nat, depth: nat, nodes: nat)
    requires n <= |pieces| && forall piece :: piece in pieces ==> |piece| < size
    requires DecodeItems(pieces[..n], size, depth, nodes).None?
    ensures DecodeItems(pieces, size, depth, nodes).None?
    decreases |pieces|
  {
    hide DecodeValue;
    if n == |pieces| {
      assert pieces[..n] == pieces;
    } else {
      assert pieces[..|pieces| - 1][..n] == pieces[..n];
      ItemsFail(pieces[..|pieces| - 1], n, size, depth, nodes);
    }
  }

  method DecodeProtoStruct(payload: Bytes, depth: nat, budget: Budget) returns (r: Result<Json>)
    modifies budget
    ensures Agrees(r, budget.nodes, DecodeStruct(payload, depth, old(budget.nodes)))
    decreases |payload|, 1, 0
  {
    hide Decode, DecodeValue, AllBytes, KeyAndValue;
    var decoded := DecodeWireFields(payload);
    if decoded.None? {
      return Error;
    }
    PiecesShorter(payload);
    var entries, result := AllBytes(decoded.value, 1), map[];
    for i := 0 to |entries|
      invariant DecodeEntries(entries[..i], |payload|, depth, old(budget.nodes)) == Some((result, budget.nodes))
    {
      assert entries[..i + 1][..i] == entries[..i];
      var entry := KeyAndValue(entries[i]);
      if entry.None? || entry.value.0 in result {
        EntriesFail(entries, i + 1, |payload|, depth, old(budget.nodes));
        return Error;
      }
      var value := DecodeProtoValue(entry.value.1, depth, budget);
      if value.Error? {
        EntriesFail(entries, i + 1, |payload|, depth, old(budget.nodes));
        return Error;
      }
      result := result[entry.value.0 := value.value];
    }
    assert entries[..|entries|] == entries;
    r := Ok(Object(result));
  }

  lemma {:induction false} EntriesFail(pieces: seq<Bytes>, n: nat, size: nat, depth: nat, nodes: nat)
    requires n <= |pieces| && forall piece :: piece in pieces ==> |piece| < size
    requires DecodeEntries(pieces[..n], size, depth, nodes).None?
    ensures DecodeEntries(pieces, size, depth, nodes).None?
    decreases |pieces|
  {
    hide DecodeValue, KeyAndValue;
    if n == |pieces| {
      assert pieces[..n] == pieces;
    } else {
      assert pieces[..|pieces| - 1][..n] == pieces[..n];
      EntriesFail(pieces[..|pieces| - 1], n, size, depth, nodes);
    }
  }

  method EncodeProtoValue(v: Json, depth: nat, budget: Budget) returns (r: Result<Bytes>)
    modifies budget
    ensures Agrees(r, budget.nodes, EncodeValue(v, depth, old(budget.nodes)))
    decreases v, 1, 0
  {
    hide AppendBytes, AppendVarintField, AppendFixed64Field, Sorted, Utf8.Valid, EncodeEntries;
    if depth > MAX_DEPTH {
      return Error;
    }
    budget.nodes := budget.nodes + 1;
    if budget.nodes > MAX_NODES {
      return Error;
    }
    match v
    case Null => r := Ok(AppendVarintField([], 1, 0));
    case Bool(b) => r := Ok(if b then AppendVarintField([], 4, 1) else AppendVarintField([], 4, 0));
    case Text(text) =>
      if !Utf8.Valid(text) {
        return Error;
      }
      r := Ok(AppendBytes([], 3, text));
    case Number(bits) =>
      if !Finite(bits) {
        return Error;
      }
      r := Ok(AppendFixed64Field([], 2, bits));
    case List(items) =>
      ghost var pieces := [];
      var list := [];
      for i := 0 to |items|
        invariant EncodeItems(items[..i], depth + 1, old(budget.nodes) + 1) == Some((pieces, budget.nodes))
        invariant list == AppendAll(pieces)
      {
        assert items[..i + 1][..i] == items[..i];
        var encoded := EncodeProtoValue(items[i], depth + 1, budget);
        if encoded.Error? {
          EncodeItemsFail(items, i + 1, depth + 1, old(budget.nodes) + 1);
          return Error;
        }
        assert (pieces + [encoded.value])[..|pieces|] == pieces;
        pieces := pieces + [encoded.value];
        list := AppendBytes(list, 1, encoded.value);
      }
      assert items[..|items|] == items;
      r := Ok(AppendBytes([], 6, list));
    case Object(fields) =>
      var structure := EncodeProtoStruct(v, depth + 1, budget);
      if structure.Error? {
        return Error;
      }
      r := Ok(AppendBytes([], 5, structure.value));
  }

  lemma {:induction false} EncodeItemsFail(items: seq<Json>, n: nat, depth: nat, nodes: nat)
    requires n <= |items| && EncodeItems(items[..n], depth, nodes).None?
    ensures EncodeItems(items, depth, nodes).None?
    decreases |items|
  {
    hide EncodeValue;
    if n == |items| {
      assert items[..n] == items;
    } else {
      assert items[..|items| - 1][..n] == items[..n];
      EncodeItemsFail(items[..|items| - 1], n, depth, nodes);
    }
  }

  /** Keys are checked first, in the order of the map, and then encoded in ascending order. */
  method EncodeProtoStruct(v: Json, depth: nat, budget: Budget) returns (r: Result<Bytes>)
    requires v.Object?
    modifies budget
    ensures match EncodeEntries(v, Sorted(v.fields.Keys), depth, old(budget.nodes))
            case Some((pieces, n)) =>
              if exists key :: key in v.fields && !Utf8.Valid(key) then r.Error?
              else r == Ok(AppendAll(pieces)) && budget.nodes == n
            case None => r.Error?
    decreases v, 0, |Sorted(v.fields.Keys)| + 1
  {
    hide EncodeValue, Sorted, Utf8.Valid, AppendBytes;
    var keys := Sorted(v.fields.Keys);
    for i := 0 to |keys|
      invariant forall k :: 0 <= k < i ==> Utf8.Valid(keys[k])
    {
      if !Utf8.Valid(keys[i]) {
        assert keys[i] in keys;
        return Error;
      }
    }
    forall key | key in v.fields ensures Utf8.Valid(key) { assert key in keys; }
    ghost var pieces := [];
    var structure := [];
    for i := 0 to |keys|
      invariant EncodeEntries(v, keys[..i], depth, old(budget.nodes)) == Some((pieces, budget.nodes))
      invariant structure == AppendAll(pieces)
    {
      assert keys[..i + 1][..i] == keys[..i];
      var encoded := EncodeProtoValue(v.fields[keys[i]], depth, budget);
      if encoded.Error? {
        EncodeEntriesFail(v, keys, i + 1, depth, old(budget.nodes));
        return Error;
      }
      var entry := AppendBytes(AppendBytes([], 1, keys[i]), 2, encoded.value);
      assert (pieces + [entry])[..|pieces|] == pieces;
      pieces := pieces + [entry];
      structure := AppendBytes(structure, 1, entry);
    }
    assert keys[..|keys|] == keys;
    r := Ok(structure);
  }

  lemma {:induction false} EncodeEntriesFail(v: Json, keys: seq<Bytes>, n: nat, depth: nat, nodes: nat)
    requires v.Object? && (forall k :: k in keys ==> k in v.fields) && n <= |keys|
    requires EncodeEntries(v, keys[..n], depth, nodes).None?
    ensures EncodeEntries(v, keys, depth, nodes).None?
    decreases |keys|
  {
    hide EncodeValue;
    if n == |keys| {
      assert keys[..n] == keys;
    } else {
      assert keys[..|keys| - 1][..n] == keys[..n];
      EncodeEntriesFail(v, keys[..|keys| - 1], n, depth, nodes);
    }
  }
}
