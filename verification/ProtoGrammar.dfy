/** What a google.protobuf.Value message means, and that the decoder accepts just those of trees within the limits. */
module ProtoGrammar {
  import opened Common
  import opened Wire
  import opened WireFormat
  import opened ProtoValue
  import Utf8

  // ---- The grammar ----

  /** The six fields that a value can be: null, a number, a string, a bool, a struct or a list. */
  predicate KindField(f: Field) {
    match f
    case VarintField(number, _) => number == 1 || number == 4
    case Fixed64Field(number, _) => number == 2
    case BytesField(number, _) => number == 3 || number == 5 || number == 6
    case _ => false
  }

  /** The last of these fields; there is none of another kind. Other fields do not matter. */
  predicate Chosen(fields: seq<Field>, f: Field) {
    exists i :: 0 <= i < |fields| && fields[i] == f && KindField(f)
                && (forall j :: i < j < |fields| ==> !KindField(fields[j]))
                && (forall j :: 0 <= j < i && KindField(fields[j]) ==> fields[j].number == f.number)
  }

  /** The contents of field 1 in order. */
  predicate ArePieces(fields: seq<Field>, pieces: seq<Bytes>) {
    if fields == [] then pieces == []
    else if fields[0].BytesField? && fields[0].number == 1 then
      pieces != [] && pieces[0] == fields[0].bytes && ArePieces(fields[1..], pieces[1..])
    else ArePieces(fields[1..], pieces)
  }

  predicate LastIs(fields: seq<Field>, number: nat, bytes: Bytes) {
    exists i :: 0 <= i < |fields| && fields[i] == BytesField(number, bytes)
                && forall j :: i < j < |fields| ==> !(fields[j].BytesField? && fields[j].number == number)
  }

  ghost predicate IsEntry(b: Bytes, key: Bytes, value: Bytes) {
    exists fields :: IsMessage(b, fields) && LastIs(fields, 1, key) && LastIs(fields, 2, value) && Utf8.Valid(key)
  }

  /** This payload is a message of this tree. */
  ghost predicate Means(payload: Bytes, v: Json)
    decreases v, 2
  {
    exists fields, f :: IsMessage(payload, fields) && Chosen(fields, f) && Holds(f, v)
  }

  ghost predicate Holds(f: Field, v: Json)
    decreases v, 1
  {
    match v
    case Null => f == VarintField(1, 0)
    case Number(bits) => f == Fixed64Field(2, bits) && Finite(bits)
    case Text(text) => f == BytesField(3, text) && Utf8.Valid(text)
    case Bool(b) => f == VarintField(4, if b then 1 else 0)
    case Object(_) =>
      && f.BytesField? && f.number == 5
      && exists fields, pieces, entries: seq<(Bytes, Bytes)> ::
           IsMessage(f.bytes, fields) && ArePieces(fields, pieces) && EntriesMean(pieces, entries, v)
    case List(items) =>
      && f.BytesField? && f.number == 6
      && exists fields, pieces :: IsMessage(f.bytes, fields) && ArePieces(fields, pieces) && |pieces| == |items|
                                  && forall i :: 0 <= i < |items| ==> Means(pieces[i], items[i])
  }

  /** Each piece is an entry of a key of its own, and these are the keys of the object. */
  ghost predicate AreEntries(pieces: seq<Bytes>, entries: seq<(Bytes, Bytes)>, v: Json)
    requires v.Object?
  {
    && |entries| == |pieces| && (forall i :: 0 <= i < |pieces| ==> IsEntry(pieces[i], entries[i].0, entries[i].1))
    && (forall i, j :: 0 <= i < j < |entries| ==> entries[i].0 != entries[j].0)
    && (forall i :: 0 <= i < |entries| ==> entries[i].0 in v.fields)
    && (forall k :: k in v.fields ==> exists i :: 0 <= i < |entries| && entries[i].0 == k)
  }

  /** And the values of these entries are those of the object. */
  ghost predicate EntriesMean(pieces: seq<Bytes>, entries: seq<(Bytes, Bytes)>, v: Json)
    requires v.Object?
    decreases v, 0
  {
    AreEntries(pieces, entries, v) && forall i :: 0 <= i < |entries| ==> Means(entries[i].1, v.fields[entries[i].0])
  }

  // ---- Lookups ----

  predicate Has(fields: seq<Field>, number: nat) {
    exists j :: 0 <= j < |fields| && KindField(fields[j]) && fields[j].number == number
  }

  /** What the lookups of the decoder find of this kind. */
  function Found(fields: seq<Field>, number: nat): Option<Field> {
    if number == 1 || number == 4 then
      (match LastVarint(fields, number) case None => None case Some(v) => Some(VarintField(number, v)))
    else if number == 2 then
      (match LastFixed64(fields, number) case None => None case Some(v) => Some(Fixed64Field(number, v)))
    else (match LastBytes(fields, number) case None => None case Some(v) => Some(BytesField(number, v)))
  }

  predicate IsKind(number: nat) { 1 <= number <= 6 }

  lemma FoundSnoc(fields: seq<Field>, f: Field, number: nat)
    requires IsKind(number)
    ensures Found(fields + [f], number) == if KindField(f) && f.number == number then Some(f) else Found(fields, number)
  {
    assert (fields + [f])[..|fields|] == fields;
  }

  lemma {:induction false} FoundIsLast(fields: seq<Field>, number: nat)
    requires IsKind(number)
    ensures Found(fields, number).Some? <==> Has(fields, number)
    ensures Found(fields, number).Some? ==>
              KindField(Found(fields, number).value) && Found(fields, number).value.number == number
  {
    hide Found;
    if fields == [] {
      FoundNone(number);
    } else {
      var n := |fields| - 1;
      FoundIsLast(fields[..n], number);
      FoundSnoc(fields[..n], fields[n], number);
      assert fields == fields[..n] + [fields[n]];
      assert forall j :: 0 <= j < n ==> fields[..n][j] == fields[j];
    }
  }

  lemma FoundNone(number: nat)
    ensures Found([], number) == None
  {
  }

  function Count(fields: seq<Field>, number: nat): nat { if Found(fields, number).Some? then 1 else 0 }

  lemma KindsCounts(fields: seq<Field>)
    ensures Kinds(fields) == Count(fields, 1) + Count(fields, 2) + Count(fields, 3) + Count(fields, 4)
                             + Count(fields, 5) + Count(fields, 6)
  {
    hide LastVarint, LastBytes, LastFixed64;
  }

  lemma KindsOne(fields: seq<Field>, number: nat)
    requires IsKind(number)
    ensures Kinds(fields) == 1 && Found(fields, number).Some? <==>
              && Found(fields, number).Some?
              && forall other :: IsKind(other) && other != number ==> Found(fields, other).None?
  {
    hide Kinds, Found;
    KindsCounts(fields);
    if number == 1 {} else if number == 2 {} else if number == 3 {} else if number == 4 {} else if number == 5 {}
  }

  /** The decoder goes by a field exactly if there is one kind, and that is its last field. */
  lemma {:induction false} ChosenIs(fields: seq<Field>, f: Field)
    ensures Chosen(fields, f) <==> KindField(f) && Kinds(fields) == 1 && Found(fields, f.number) == Some(f)
  {
    hide Found, Kinds, KindField;
    if KindField(f) {
      KindNumber(f);
      KindsOne(fields, f.number);
      forall other | IsKind(other) ensures Found(fields, other).Some? <==> Has(fields, other) {
        FoundIsLast(fields, other);
      }
      if Chosen(fields, f) {
        var i :| 0 <= i < |fields| && fields[i] == f
          && (forall j :: i < j < |fields| ==> !KindField(fields[j]))
          && (forall j :: 0 <= j < i && KindField(fields[j]) ==> fields[j].number == f.number);
        FoundAt(fields, i);
        forall other | IsKind(other) && other != f.number ensures !Has(fields, other) {}
      }
      if && Found(fields, f.number) == Some(f)
         && forall other :: IsKind(other) && other != f.number ==> !Has(fields, other) {
        var i := FoundWhere(fields, f.number);
        forall j | 0 <= j < |fields| && KindField(fields[j]) ensures fields[j].number == f.number {
          KindNumber(fields[j]);
          assert Has(fields, fields[j].number);
        }
      }
    }
  }

  lemma KindNumber(f: Field)
    requires KindField(f)
    ensures IsKind(f.number)
  {
  }

  lemma {:induction false} FoundAt(fields: seq<Field>, i: nat)
    requires i < |fields| && KindField(fields[i])
    requires forall j :: i < j < |fields| ==> !KindField(fields[j])
    ensures Found(fields, fields[i].number) == Some(fields[i])
    decreases |fields|
  {
    hide Found, KindField;
    var n := |fields| - 1;
    KindNumber(fields[i]);
    FoundSnoc(fields[..n], fields[n], fields[i].number);
    assert fields == fields[..n] + [fields[n]];
    if i < n {
      FoundAt(fields[..n], i);
    }
  }

  lemma {:induction false} FoundWhere(fields: seq<Field>, number: nat) returns (i: nat)
    requires IsKind(number) && Found(fields, number).Some?
    ensures i < |fields| && fields[i] == Found(fields, number).value
    ensures forall j :: i < j < |fields| && KindField(fields[j]) ==> fields[j].number != number
  {
    hide Found, KindField;
    if fields == [] {
      FoundNone(number);
    } else {
      var n := |fields| - 1;
      FoundSnoc(fields[..n], fields[n], number);
      assert fields == fields[..n] + [fields[n]];
      if KindField(fields[n]) && fields[n].number == number {
        i := n;
      } else {
        i := FoundWhere(fields[..n], number);
      }
    }
  }

  lemma {:induction false} LastBytesIs(fields: seq<Field>, number: nat, bytes: Bytes)
    ensures LastBytes(fields, number) == Some(bytes) <==> LastIs(fields, number, bytes)
  {
    if fields != [] {
      var n := |fields| - 1;
      LastBytesIs(fields[..n], number, bytes);
      assert forall j :: 0 <= j < n ==> fields[..n][j] == fields[j];
      if fields[n].BytesField? && fields[n].number == number {
        if LastIs(fields, number, bytes) {
          var i :| 0 <= i < |fields| && fields[i] == BytesField(number, bytes)
            && forall j :: i < j < |fields| ==> !(fields[j].BytesField? && fields[j].number == number);
          assert i == n;
        }
      }
    }
  }

  lemma {:induction false} PiecesAre(fields: seq<Field>, pieces: seq<Bytes>)
    ensures AllBytes(fields, 1) == pieces <==> ArePieces(fields, pieces)
  {
    if fields != [] {
      AllBytesFirst(fields, 1);
      PiecesAre(fields[1..], pieces);
      if pieces != [] {
        PiecesAre(fields[1..], pieces[1..]);
        assert pieces == [pieces[0]] + pieces[1..];
      }
    }
  }

  lemma {:induction false} AllBytesFirst(fields: seq<Field>, number: nat)
    requires fields != []
    ensures AllBytes(fields, number)
            == (if fields[0].BytesField? && fields[0].number == number then [fields[0].bytes] else [])
               + AllBytes(fields[1..], number)
  {
    var n := |fields| - 1;
    if n == 0 {
      assert fields[..0] == [] && fields[1..] == [];
    } else {
      AllBytesFirst(fields[..n], number);
      assert fields[..n][1..] == fields[1..][..n - 1] && fields[1..][n - 1] == fields[n];
    }
  }

  lemma EntryIs(b: Bytes, key: Bytes, value: Bytes)
    ensures KeyAndValue(b) == Some((key, value)) <==> IsEntry(b, key, value)
  {
    hide Decode, IsMessage, LastIs, LastBytes, Utf8.Valid;
    if Decode(b).Some? {
      var fields := Decode(b).value;
      MessageIs(b, fields);
      LastBytesIs(fields, 1, key);
      LastBytesIs(fields, 2, value);
    }
    if IsEntry(b, key, value) {
      var fields :| IsMessage(b, fields) && LastIs(fields, 1, key) && LastIs(fields, 2, value);
      MessageIs(b, fields);
      LastBytesIs(fields, 1, key);
      LastBytesIs(fields, 2, value);
    }
  }

  // ---- What the decoder makes of the field it goes by ----

  function ByField(f: Field, depth: nat, nodes: nat): Option<(Json, nat)> {
    match f
    case VarintField(1, raw) => (if raw != 0 then None else Some((Null, nodes + 1)))
    case VarintField(4, raw) => (if raw > 1 then None else Some((Bool(raw == 1), nodes + 1)))
    case Fixed64Field(2, bits) => (if Finite(bits) then Some((Number(bits), nodes + 1)) else None)
    case BytesField(3, text) => (if Utf8.Valid(text) then Some((Text(text), nodes + 1)) else None)
    case BytesField(5, inner) => DecodeStruct(inner, depth + 1, nodes + 1)
    case BytesField(6, inner) => DecodeList(inner, depth + 1, nodes + 1)
    case _ => None
  }

  lemma DecodeByField(payload: Bytes, f: Field, depth: nat, nodes: nat)
    requires Decode(payload).Some? && Chosen(Decode(payload).value, f) && depth <= MAX_DEPTH && nodes + 1 <= MAX_NODES
    ensures DecodeValue(payload, depth, nodes) == ByField(f, depth, nodes)
  {
    hide Decode, LastBytes, LastVarint, LastFixed64, DecodeStruct, DecodeList, Finite, Utf8.Valid, Chosen;
    var fields := Decode(payload).value;
    ChosenIs(fields, f);
    KindsOne(fields, f.number);
    assert forall other :: IsKind(other) && other != f.number ==> Found(fields, other).None?;
    assert Found(fields, 1).Some? || Found(fields, 2).Some? || Found(fields, 3).Some? || Found(fields, 4).Some?
           || Found(fields, 5).Some? || Found(fields, 6).Some?;
  }

  lemma DecodeChooses(payload: Bytes, depth: nat, nodes: nat) returns (f: Field)
    requires DecodeValue(payload, depth, nodes).Some?
    ensures depth <= MAX_DEPTH && nodes + 1 <= MAX_NODES
    ensures Decode(payload).Some? && Chosen(Decode(payload).value, f)
    ensures DecodeValue(payload, depth, nodes) == ByField(f, depth, nodes)
  {
    hide Decode, LastBytes, LastVarint, LastFixed64, DecodeStruct, DecodeList, Finite, Utf8.Valid, Chosen, ByField;
    var fields := Decode(payload).value;
    KindsCounts(fields);
    var number := if Found(fields, 1).Some? then 1 else if Found(fields, 2).Some? then 2
                  else if Found(fields, 3).Some? then 3 else if Found(fields, 4).Some? then 4
                  else if Found(fields, 5).Some? then 5 else 6;
    f := Found(fields, number).value;
    FoundIsLast(fields, number);
    ChosenIs(fields, f);
    DecodeByField(payload, f, depth, nodes);
  }

  // ---- Sound ----

  lemma {:induction false} MeansSound(payload: Bytes, depth: nat, nodes: nat)
    requires DecodeValue(payload, depth, nodes).Some?
    ensures Means(payload, DecodeValue(payload, depth, nodes).value.0)
    decreases |payload|, 2
  {
    hide DecodeValue, Decode, Chosen, DecodeStruct, DecodeList, IsMessage, Holds;
    var f := DecodeChooses(payload, depth, nodes);
    var fields := Decode(payload).value;
    var v := DecodeValue(payload, depth, nodes).value.0;
    MessageIs(payload, fields);
    FieldsShorter(payload);
    ChosenThere(fields, f);
    HoldsOf(f, depth, nodes, |payload|);
  }

  lemma ChosenThere(fields: seq<Field>, f: Field)
    requires Chosen(fields, f)
    ensures f in fields && KindField(f)
  {
  }

  lemma {:induction false} HoldsOf(f: Field, depth: nat, nodes: nat, size: nat)
    requires KindField(f) && ByField(f, depth, nodes).Some? && (f.BytesField? ==> |f.bytes| < size)
    ensures Holds(f, ByField(f, depth, nodes).value.0)
    decreases size, 1
  {
    hide DecodeValue, Decode, DecodeStruct, DecodeList, IsMessage, ArePieces, Means;
    if f.BytesField? && f.number == 6 {
      ListSound(f.bytes, depth + 1, nodes + 1);
    } else if f.BytesField? && f.number == 5 {
      StructSound(f.bytes, depth + 1, nodes + 1);
    }
  }

  lemma {:induction false} ListSound(payload: Bytes, depth: nat, nodes: nat)
    requires DecodeList(payload, depth, nodes).Some?
    ensures var v := DecodeList(payload, depth, nodes).value.0;
            v.List? && Holds(BytesField(6, payload), v)
    decreases |payload|, 1
  {
    hide DecodeValue, Decode, IsMessage, ArePieces, Means, AllBytes;
    var fields := Decode(payload).value;
    var pieces := AllBytes(fields, 1);
    PiecesShorter(payload);
    MessageIs(payload, fields);
    PiecesAre(fields, pieces);
    ItemsSound(pieces, |payload|, depth, nodes);
  }

  lemma {:induction false} ItemsSound(pieces: seq<Bytes>, size: nat, depth: nat, nodes: nat)
    requires forall piece :: piece in pieces ==> |piece| < size
    requires DecodeItems(pieces, size, depth, nodes).Some?
    ensures var items := DecodeItems(pieces, size, depth, nodes).value.0;
            |items| == |pieces| && forall i :: 0 <= i < |items| ==> Means(pieces[i], items[i])
    decreases size, 0, |pieces|
  {
    hide DecodeValue, Means;
    if pieces != [] {
      var front, last := pieces[..|pieces| - 1], pieces[|pieces| - 1];
      ItemsSound(front, size, depth, nodes);
      MeansSound(last, depth, DecodeItems(front, size, depth, nodes).value.1);
    }
  }

  lemma {:induction false} StructSound(payload: Bytes, depth: nat, nodes: nat)
    requires DecodeStruct(payload, depth, nodes).Some?
    ensures var v := DecodeStruct(payload, depth, nodes).value.0;
            v.Object? && Holds(BytesField(5, payload), v)
    decreases |payload|, 1
  {
    hide DecodeValue, Decode, IsMessage, ArePieces, Means, AllBytes, EntriesMean;
    var fields := Decode(payload).value;
    var pieces := AllBytes(fields, 1);
    PiecesShorter(payload);
    MessageIs(payload, fields);
    PiecesAre(fields, pieces);
    var entries := EntriesSound(pieces, |payload|, depth, nodes);
  }

  lemma {:induction false} EntriesSound(pieces: seq<Bytes>, size: nat, depth: nat, nodes: nat)
    returns (entries: seq<(Bytes, Bytes)>)
    requires forall piece :: piece in pieces ==> |piece| < size
    requires DecodeEntries(pieces, size, depth, nodes).Some?
    ensures EntriesMean(pieces, entries, Object(DecodeEntries(pieces, size, depth, nodes).value.0))
    decreases size, 0, |pieces|
  {
    hide DecodeValue, Means, KeyAndValue, IsEntry, EntriesMean;
    if pieces == [] {
      entries := [];
      NoEntries();
    } else {
      var n := |pieces| - 1;
      var before := EntriesSound(pieces[..n], size, depth, nodes);
      var (found, m) := DecodeEntries(pieces[..n], size, depth, nodes).value;
      var (key, value) := KeyAndValue(pieces[n]).value;
      EntryIs(pieces[n], key, value);
      MeansSound(value, depth, m);
      var w := DecodeValue(value, depth, m).value.0;
      entries := before + [(key, value)];
      EntriesSnoc(pieces[..n], before, found, pieces[n], key, value, w);
      assert pieces[..n] + [pieces[n]] == pieces;
    }
  }

  lemma NoEntries()
    ensures EntriesMean([], [], Object(map[]))
  {
  }

  lemma EntriesSnoc(pieces: seq<Bytes>, entries: seq<(Bytes, Bytes)>, found: map<Bytes, Json>, piece: Bytes, key: Bytes,
                    value: Bytes, w: Json)
    requires EntriesMean(pieces, entries, Object(found)) && IsEntry(piece, key, value) && key !in found
    requires Means(value, w)
    ensures EntriesMean(pieces + [piece], entries + [(key, value)], Object(found[key := w]))
  {
    hide IsEntry, Means;
    var longer, more := entries + [(key, value)], found[key := w];
    assert longer[|entries|] == (key, value);
    forall k | k in more ensures exists i :: 0 <= i < |longer| && longer[i].0 == k {
      if k != key {
        var i :| 0 <= i < |entries| && entries[i].0 == k;
        assert longer[i].0 == k;
      } else {
        assert longer[|entries|].0 == k;
      }
    }
  }

  // ---- Complete ----

  lemma {:induction false} MeansComplete(payload: Bytes, v: Json, depth: nat, nodes: nat)
    requires Means(payload, v) && Shallow(v, depth) && nodes + Nodes(v) <= MAX_NODES
    ensures DecodeValue(payload, depth, nodes) == Some((v, nodes + Nodes(v)))
    decreases v, 3, 0
  {
    hide DecodeValue, Decode, Chosen, Nodes, DecodeStruct, DecodeList, IsMessage, ByField;
    var fields, f :| IsMessage(payload, fields) && Chosen(fields, f) && Holds(f, v);
    MessageIs(payload, fields);
    NodesPositive(v);
    DecodeByField(payload, f, depth, nodes);
    HoldsComplete(f, v, depth, nodes);
  }

  lemma NodesPositive(v: Json)
    ensures Nodes(v) >= 1
  {
  }

  lemma {:induction false} HoldsComplete(f: Field, v: Json, depth: nat, nodes: nat)
    requires Holds(f, v) && Shallow(v, depth) && nodes + Nodes(v) <= MAX_NODES
    ensures ByField(f, depth, nodes) == Some((v, nodes + Nodes(v)))
    decreases v, 2, 0
  {
    hide Decode, DecodeItems, DecodeEntries, IsMessage, ArePieces, EntriesMean, Means, AllBytes, Sorted;
    match v
    case List(items) =>
      var fields, pieces :| IsMessage(f.bytes, fields) && ArePieces(fields, pieces) && |pieces| == |items|
        && forall i :: 0 <= i < |items| ==> Means(pieces[i], items[i]);
      MessageIs(f.bytes, fields);
      PiecesAre(fields, pieces);
      PiecesShorter(f.bytes);
      ItemsComplete(v, items, pieces, |f.bytes|, depth + 1, nodes + 1);
    case Object(m) =>
      var fields, pieces, entries: seq<(Bytes, Bytes)> :|
        IsMessage(f.bytes, fields) && ArePieces(fields, pieces) && EntriesMean(pieces, entries, v);
      MessageIs(f.bytes, fields);
      PiecesAre(fields, pieces);
      PiecesShorter(f.bytes);
      EntriesComplete(v, entries, pieces, |f.bytes|, depth + 1, nodes + 1);
    case _ =>
  }

  lemma {:induction false} ItemsComplete(v: Json, items: seq<Json>, pieces: seq<Bytes>, size: nat, depth: nat,
                                         nodes: nat)
    requires v.List? && |pieces| == |items| && items <= v.items && forall piece :: piece in pieces ==> |piece| < size
    requires forall i :: 0 <= i < |items| ==> Means(pieces[i], items[i]) && Shallow(items[i], depth)
    requires nodes + NodesOf(items) <= MAX_NODES
    ensures DecodeItems(pieces, size, depth, nodes) == Some((items, nodes + NodesOf(items)))
    decreases v, 1, |items|
  {
    hide DecodeValue, DecodeItems, Means, Nodes, NodesOf, Shallow;
    NoItems(size, depth, nodes);
    if items == [] {
      assert pieces == [];
    } else {
      var n := |items| - 1;
      NodesLast(items);
      ItemsComplete(v, items[..n], pieces[..n], size, depth, nodes);
      assert items[n] == v.items[n];
      MeansComplete(pieces[n], items[n], depth, nodes + NodesOf(items[..n]));
      ItemDecoded(pieces[..n], pieces[n], size, depth, nodes, items[n], nodes + NodesOf(items));
      assert items[..n] + [items[n]] == items && pieces[..n] + [pieces[n]] == pieces;
    }
  }

  lemma NoItems(size: nat, depth: nat, nodes: nat)
    ensures DecodeItems([], size, depth, nodes) == Some(([], nodes)) && NodesOf([]) == 0
  {
  }

  lemma NodesLast(items: seq<Json>)
    requires items != []
    ensures NodesOf(items) == NodesOf(items[..|items| - 1]) + Nodes(items[|items| - 1])
  {
    hide Nodes;
  }

  lemma ItemDecoded(front: seq<Bytes>, last: Bytes, size: nat, depth: nat, nodes: nat, w: Json, n: nat)
    requires |last| < size && forall piece :: piece in front ==> |piece| < size
    requires DecodeItems(front, size, depth, nodes).Some?
    requires DecodeValue(last, depth, DecodeItems(front, size, depth, nodes).value.1) == Some((w, n))
    ensures forall piece :: piece in front + [last] ==> |piece| < size
    ensures DecodeItems(front + [last], size, depth, nodes)
            == Some((DecodeItems(front, size, depth, nodes).value.0 + [w], n))
  {
    hide DecodeValue;
    assert (front + [last])[..|front|] == front;
  }

  function Keys(entries: seq<(Bytes, Bytes)>): (keys: seq<Bytes>)
    ensures |keys| == |entries| && forall i :: 0 <= i < |entries| ==> keys[i] == entries[i].0
  {
    if entries == [] then [] else Keys(entries[..|entries| - 1]) + [entries[|entries| - 1].0]
  }

  lemma {:induction false} EntriesComplete(v: Json, entries: seq<(Bytes, Bytes)>, pieces: seq<Bytes>, size: nat,
                                           depth: nat, nodes: nat)
    requires v.Object? && EntriesMean(pieces, entries, v) && forall piece :: piece in pieces ==> |piece| < size
    requires (forall k :: k in v.fields ==> Shallow(v.fields[k], depth))
    requires nodes + NodesIn(v, Sorted(v.fields.Keys)) <= MAX_NODES
    ensures DecodeEntries(pieces, size, depth, nodes) == Some((v.fields, nodes + NodesIn(v, Sorted(v.fields.Keys))))
    decreases v, 1, |entries| + 1
  {
    hide DecodeEntries, EntriesMean, Nodes, Shallow, Sorted, NodesIn, Distinct, Restricted, Keys;
    var keys := Keys(entries);
    KeysCover(entries, pieces, v);
    SortedDistinct(v.fields.Keys);
    SortedIsDistinct(v.fields.Keys);
    NodesOrder(v, keys, Sorted(v.fields.Keys));
    FirstEntries(v, entries, pieces, size, depth, nodes, |entries|);
    assert keys[..|entries|] == keys && pieces[..|entries|] == pieces;
    RestrictedAll(v, keys);
  }

  lemma SortedIsDistinct(keys: set<Bytes>)
    ensures Distinct(Sorted(keys))
  {
    hide Sorted;
    SortedDistinct(keys);
  }

  lemma KeysCover(entries: seq<(Bytes, Bytes)>, pieces: seq<Bytes>, v: Json)
    requires v.Object? && EntriesMean(pieces, entries, v)
    ensures |pieces| == |entries|
    ensures Distinct(Keys(entries)) && forall k :: k in Keys(entries) <==> k in v.fields
  {
    hide IsEntry, Means;
    forall k | k in v.fields ensures k in Keys(entries) {
      var i :| 0 <= i < |entries| && entries[i].0 == k;
      assert Keys(entries)[i] == k;
    }
  }

  /** An object with only these of its fields. */
  function Restricted(v: Json, keys: seq<Bytes>): map<Bytes, Json>
    requires v.Object? && forall k :: k in keys ==> k in v.fields
  {
    map k | k in keys :: v.fields[k]
  }

  lemma RestrictedAll(v: Json, keys: seq<Bytes>)
    requires v.Object? && forall k :: k in keys <==> k in v.fields
    ensures Restricted(v, keys) == v.fields
  {
  }

  lemma {:induction false} FirstEntries(v: Json, entries: seq<(Bytes, Bytes)>, pieces: seq<Bytes>, size: nat,
                                        depth: nat, nodes: nat, n: nat)
    requires v.Object? && EntriesMean(pieces, entries, v) && (forall piece :: piece in pieces ==> |piece| < size)
    requires (forall k :: k in v.fields ==> Shallow(v.fields[k], depth)) && n <= |entries| == |pieces|
    requires forall k :: k in Keys(entries) ==> k in v.fields
    requires nodes + NodesIn(v, Keys(entries)) <= MAX_NODES
    ensures DecodeEntries(pieces[..n], size, depth, nodes)
            == Some((Restricted(v, Keys(entries)[..n]), nodes + NodesIn(v, Keys(entries)[..n])))
    decreases v, 1, n
  {
    hide DecodeValue, DecodeEntries, Nodes, NodesIn, Shallow, KeyAndValue, EntriesMean, Keys, IsEntry, Means,
      Restricted;
    var keys := Keys(entries);
    if n == 0 {
      NoneDecoded(v, size, depth, nodes);
    } else {
      var (key, value) := entries[n - 1];
      FirstEntries(v, entries, pieces, size, depth, nodes, n - 1);
      EntryAt(v, entries, pieces, n - 1);
      EntryIs(pieces[n - 1], key, value);
      NodesPrefix(v, keys, n);
      NodesNext(v, keys, n);
      MeansComplete(value, v.fields[key], depth, nodes + NodesIn(v, keys[..n - 1]));
      NewKey(keys, n, v);
      EntryDecoded(pieces[..n - 1], pieces[n - 1], size, depth, nodes, v.fields[key], nodes + NodesIn(v, keys[..n]));
      assert pieces[..n] == pieces[..n - 1] + [pieces[n - 1]];
    }
  }

  lemma NoneDecoded(v: Json, size: nat, depth: nat, nodes: nat)
    requires v.Object?
    ensures DecodeEntries([], size, depth, nodes) == Some((Restricted(v, []), nodes)) && NodesIn(v, []) == 0
  {
  }

  lemma EntryDecoded(front: seq<Bytes>, last: Bytes, size: nat, depth: nat, nodes: nat, w: Json, n: nat)
    requires |last| < size && forall piece :: piece in front ==> |piece| < size
    requires DecodeEntries(front, size, depth, nodes).Some? && KeyAndValue(last).Some?
    requires KeyAndValue(last).value.0 !in DecodeEntries(front, size, depth, nodes).value.0
    requires var (_, m) := DecodeEntries(front, size, depth, nodes).value;
             DecodeValue(KeyAndValue(last).value.1, depth, m) == Some((w, n))
    ensures (forall piece :: piece in front + [last] ==> |piece| < size)
    ensures DecodeEntries(front + [last], size, depth, nodes)
            == Some((DecodeEntries(front, size, depth, nodes).value.0[KeyAndValue(last).value.0 := w], n))
  {
    hide DecodeValue, KeyAndValue;
    assert (front + [last])[..|front|] == front;
  }

  lemma NodesNext(v: Json, keys: seq<Bytes>, n: nat)
    requires v.Object? && 0 < n <= |keys| && forall k :: k in keys ==> k in v.fields
    ensures NodesIn(v, keys[..n]) == NodesIn(v, keys[..n - 1]) + Nodes(v.fields[keys[n - 1]])
  {
    hide Nodes;
    assert keys[..n][..n - 1] == keys[..n - 1];
  }

  lemma EntryAt(v: Json, entries: seq<(Bytes, Bytes)>, pieces: seq<Bytes>, i: nat)
    requires v.Object? && EntriesMean(pieces, entries, v) && i < |entries| == |pieces|
    ensures IsEntry(pieces[i], entries[i].0, entries[i].1)
    ensures entries[i].0 in v.fields && Means(entries[i].1, v.fields[entries[i].0])
    ensures forall i, j :: 0 <= i < j < |entries| ==> Keys(entries)[i] != Keys(entries)[j]
  {
    hide IsEntry, Means;
  }

  lemma NewKey(keys: seq<Bytes>, n: nat, v: Json)
    requires v.Object? && 0 < n <= |keys| && (forall k :: k in keys ==> k in v.fields)
    requires forall i, j :: 0 <= i < j < |keys| ==> keys[i] != keys[j]
    ensures keys[n - 1] !in keys[..n - 1]
    ensures keys[n - 1] !in Restricted(v, keys[..n - 1])
    ensures Restricted(v, keys[..n - 1])[keys[n - 1] := v.fields[keys[n - 1]]] == Restricted(v, keys[..n])
  {
    assert keys[..n] == keys[..n - 1] + [keys[n - 1]];
  }

  lemma {:induction false} NodesPrefix(v: Json, keys: seq<Bytes>, n: nat)
    requires v.Object? && n <= |keys| && forall k :: k in keys ==> k in v.fields
    ensures NodesIn(v, keys[..n]) <= NodesIn(v, keys)
    decreases |keys|
  {
    if n == |keys| {
      assert keys[..n] == keys;
    } else {
      var front := keys[..|keys| - 1];
      assert front[..n] == keys[..n];
      NodesPrefix(v, front, n);
    }
  }

  /**
   From arbitrary bytes, the decoder returns a tree exactly if they are a message of it, it does not nest too deep, and
   the budget has room for its nodes, which are then counted.
   */
  lemma DecodesExactly(payload: Bytes, v: Json, depth: nat, nodes: nat, n: nat)
    ensures DecodeValue(payload, depth, nodes) == Some((v, n)) <==>
              Means(payload, v) && Shallow(v, depth) && n == nodes + Nodes(v) && n <= MAX_NODES
  {
    hide DecodeValue, Means, Shallow, Nodes;
    if DecodeValue(payload, depth, nodes) == Some((v, n)) {
      MeansSound(payload, depth, nodes);
      DecodeBounded(payload, depth, nodes);
    }
    if Means(payload, v) && Shallow(v, depth) && n == nodes + Nodes(v) && n <= MAX_NODES {
      MeansComplete(payload, v, depth, nodes);
    }
  }

  // ---- The encoder ----

  /** What the encoder returns for a tree is a message of it. */
  lemma EncodedMeans(v: Json, depth: nat, nodes: nat)
    requires EncodeValue(v, depth, nodes).Some? && |EncodeValue(v, depth, nodes).value.0| < WORD
    ensures Means(EncodeValue(v, depth, nodes).value.0, v)
  {
    hide EncodeValue, DecodeValue, Means;
    RoundTrip(v, depth, nodes);
    MeansSound(EncodeValue(v, depth, nodes).value.0, depth, nodes);
  }

  /** Of an object it writes one entry for each key, by ascending key. */
  lemma EncodedInOrder(v: Json, depth: nat, nodes: nat) returns (pieces: seq<Bytes>, entries: seq<(Bytes, Bytes)>)
    requires v.Object? && EncodeValue(v, depth, nodes).Some? && |EncodeValue(v, depth, nodes).value.0| < WORD
    ensures EncodeValue(v, depth, nodes).value.0 == AppendBytes([], 5, AppendAll(pieces))
    ensures |pieces| == |entries|
    ensures forall i :: 0 <= i < |entries| ==> IsEntry(pieces[i], entries[i].0, entries[i].1)
    ensures forall i, j :: 0 <= i < j < |entries| ==> Before(entries[i].0, entries[j].0)
    ensures forall k :: k in Keys(entries) <==> k in v.fields
  {
    hide AppendBytes, EncodeEntries, Sorted, IsEntry, EntryOf, AppendAll, KeyAndValue;
    var keys := Sorted(v.fields.Keys);
    SortedDistinct(v.fields.Keys);
    pieces := EncodeEntries(v, keys, depth + 1, nodes + 1).value.0;
    entries := EntriesEncoded(v, keys, depth + 1, nodes + 1);
    AppendBytesSize([], 5, AppendAll(pieces));
    AppendAllSize(pieces);
    assert Keys(entries) == keys;
    forall i | 0 <= i < |entries| ensures IsEntry(pieces[i], entries[i].0, entries[i].1) {
      assert pieces[i] in pieces && keys[i] in keys;
      EntryDecodes(entries[i].0, entries[i].1);
      EntryIs(pieces[i], entries[i].0, entries[i].1);
    }
  }

  lemma {:induction false} EntriesEncoded(v: Json, keys: seq<Bytes>, depth: nat, nodes: nat)
    returns (entries: seq<(Bytes, Bytes)>)
    requires v.Object? && (forall k :: k in keys ==> k in v.fields) && EncodeEntries(v, keys, depth, nodes).Some?
    ensures var pieces := EncodeEntries(v, keys, depth, nodes).value.0;
            && |pieces| == |keys| == |entries|
            && forall i :: 0 <= i < |keys| ==>
                 entries[i].0 == keys[i] && pieces[i] == EntryOf(entries[i].0, entries[i].1)
    decreases |keys|
  {
    hide EncodeValue, EntryOf;
    if keys == [] {
      entries := [];
    } else {
      var n := |keys| - 1;
      var before := EntriesEncoded(v, keys[..n], depth, nodes);
      var m := EncodeEntries(v, keys[..n], depth, nodes).value.1;
      entries := before + [(keys[n], EncodeValue(v.fields[keys[n]], depth, m).value.0)];
    }
  }
}
