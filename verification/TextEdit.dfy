/** The text replacement of the Edit tool, with the occurrences Go's strings package counts. */
module TextEdit {
  import opened Common
  import Utf8

  datatype EditArguments = EditArguments(path: Bytes, oldString: Bytes, newString: Bytes, replaceAll: bool)

  predicate OccursAt(s: Bytes, sub: Bytes, i: nat) {
    i + |sub| <= |s| && s[i..i + |sub|] == sub
  }

  /** strings.Index from position i on: the first occurrence, or None. */
  function IndexFrom(s: Bytes, sub: Bytes, i: nat): (r: Option<nat>)
    requires i <= |s|
    ensures r.Some? ==> i <= r.value && OccursAt(s, sub, r.value)
    ensures forall j: nat :: i <= j && OccursAt(s, sub, j) ==> r.Some? && r.value <= j
    decreases |s| - i
  {
    if OccursAt(s, sub, i) then Some(i)
    else if i == |s| then None
    else IndexFrom(s, sub, i + 1)
  }

  function Index(s: Bytes, sub: Bytes): Option<nat> { IndexFrom(s, sub, 0) }

  /** strings.Count. */
  function Count(s: Bytes, sub: Bytes): nat
    requires sub != []
    decreases |s|
  {
    match Index(s, sub)
    case None => 0
    case Some(i) => 1 + Count(s[i + |sub|..], sub)
  }

  /** strings.Replace; None for the limit replaces every occurrence. */
  function Replace(s: Bytes, sub: Bytes, repl: Bytes, limit: Option<nat>): Bytes
    requires sub != []
    decreases |s|
  {
    if limit == Some(0) then s
    else
      match Index(s, sub)
      case None => s
      case Some(i) =>
        s[..i] + repl + Replace(s[i + |sub|..], sub, repl, if limit.Some? then Some(limit.value - 1) else None)
  }

  /** None stands for the two errors "not found" and "multiple matches". */
  function ApplyEdit(a: EditArguments, content: Bytes): (r: Option<Bytes>)
    requires a.oldString != []
  {
    var matches := Count(content, a.oldString);
    if matches == 0 then None
    else if matches > 1 && !a.replaceAll then None
    else Some(Replace(content, a.oldString, a.newString, if a.replaceAll then None else Some(1)))
  }

  /** The text with a separator between neighbouring pieces. */
  function Join(ps: seq<Bytes>, sep: Bytes): Bytes
    requires ps != []
  {
    if |ps| == 1 then ps[0] else ps[0] + sep + Join(ps[1..], sep)
  }

  /**
   A decomposition at the left-to-right, non-overlapping occurrences of sub: in what is left of the text,
   the first occurrence comes right after the first piece, and the last piece has none.
   */
  ghost predicate LeftmostPieces(ps: seq<Bytes>, sub: Bytes)
    requires ps != []
  {
    if |ps| == 1 then forall j: nat :: !OccursAt(ps[0], sub, j)
    else
      && (forall j: nat :: OccursAt(Join(ps, sub), sub, j) ==> |ps[0]| <= j)
      && LeftmostPieces(ps[1..], sub)
  }

  lemma {:induction false} PiecesUnique(ps: seq<Bytes>, qs: seq<Bytes>, sub: Bytes)
    requires sub != [] && ps != [] && qs != []
    requires Join(ps, sub) == Join(qs, sub)
    requires LeftmostPieces(ps, sub) && LeftmostPieces(qs, sub)
    ensures ps == qs
    decreases |ps|
  {
    var s := Join(ps, sub);
    if |ps| > 1 {
      assert OccursAt(s, sub, |ps[0]|);
    }
    if |qs| > 1 {
      assert OccursAt(s, sub, |qs[0]|);
    }
    if |ps| > 1 && |qs| > 1 {
      var n := |ps[0]|;
      assert n == |qs[0]|;
      assert ps[0] == s[..n] == qs[0];
      assert Join(ps[1..], sub) == s[n + |sub|..] == Join(qs[1..], sub);
      PiecesUnique(ps[1..], qs[1..], sub);
      assert ps == [ps[0]] + ps[1..] && qs == [qs[0]] + qs[1..];
    } else if |ps| == 1 && |qs| == 1 {
      assert ps == [s] && qs == [s];
    }
  }

  /** Every text has such pieces. */
  lemma {:induction false} PiecesOf(s: Bytes, sub: Bytes) returns (ps: seq<Bytes>)
    requires sub != []
    ensures ps != [] && Join(ps, sub) == s && LeftmostPieces(ps, sub)
    decreases |s|
  {
    match Index(s, sub)
    case None =>
      ps := [s];
    case Some(i) =>
      var rest := PiecesOf(s[i + |sub|..], sub);
      ps := [s[..i]] + rest;
      assert ps[1..] == rest;
      assert s == s[..i] + sub + s[i + |sub|..];
  }

  lemma FirstPiece(ps: seq<Bytes>, sub: Bytes)
    requires sub != [] && |ps| > 1 && LeftmostPieces(ps, sub)
    ensures var s := Join(ps, sub); Index(s, sub) == Some(|ps[0]|) && s[..|ps[0]|] == ps[0]
                                    && s[|ps[0]| + |sub|..] == Join(ps[1..], sub)
  {
    assert OccursAt(Join(ps, sub), sub, |ps[0]|);
  }

  /** Counting and replacing are what the pieces say about them. */
  lemma {:induction false} ReplaceJoins(ps: seq<Bytes>, sub: Bytes, repl: Bytes)
    requires sub != [] && ps != [] && LeftmostPieces(ps, sub)
    ensures var s := Join(ps, sub);
            && Count(s, sub) == |ps| - 1
            && Replace(s, sub, repl, None) == Join(ps, repl)
            && (|ps| == 2 ==> Replace(s, sub, repl, Some(1)) == Join(ps, repl))
    decreases |ps|
  {
    if |ps| > 1 {
      FirstPiece(ps, sub);
      ReplaceJoins(ps[1..], sub, repl);
    }
  }

  /**
   An edit succeeds exactly when the old text occurs once, or at least once with replaceAll, counting
   occurrences from the left without overlap; it then puts the new text in their places and changes nothing else.
   */
  lemma EditMeaning(a: EditArguments, content: Bytes, ps: seq<Bytes>)
    requires a.oldString != [] && ps != []
    requires Join(ps, a.oldString) == content && LeftmostPieces(ps, a.oldString)
    ensures ApplyEdit(a, content).Some? <==> |ps| == 2 || (|ps| > 2 && a.replaceAll)
    ensures ApplyEdit(a, content).Some? ==> ApplyEdit(a, content).value == Join(ps, a.newString)
  {
    ReplaceJoins(ps, a.oldString, a.newString);
  }

  /** So "aa" occurs once in "aaa", though it is found at two places, and no replaceAll is needed to replace it. */
  lemma OverlapCountsOnce(path: Bytes, repl: Bytes)
    ensures var s: Bytes, sub: Bytes := [97, 97, 97], [97, 97];
            && OccursAt(s, sub, 0) && OccursAt(s, sub, 1) && Count(s, sub) == 1
            && ApplyEdit(EditArguments(path, sub, repl, false), s) == Some(repl + [97])
  {
    var s: Bytes, sub: Bytes, ps: seq<Bytes> := [97, 97, 97], [97, 97], [[], [97]];
    assert ps[1..] == [[97]] && Join(ps[1..], sub) == [97];
    assert Join(ps, sub) == [] + sub + [97] == s;
    assert LeftmostPieces(ps[1..], sub);
    EditMeaning(EditArguments(path, sub, repl, false), s, ps);
    ReplaceJoins(ps, sub, repl);
    assert Join(ps, repl) == [] + repl + [97] == repl + [97];
  }

  /** Byte comparison finds valid text only at character boundaries of a valid string. */
  lemma AroundOccurrence(s: Bytes, sub: Bytes, i: nat)
    requires sub != [] && Utf8.Valid(s) && Utf8.Valid(sub) && OccursAt(s, sub, i)
    ensures Utf8.Valid(s[..i]) && Utf8.Valid(s[i + |sub|..])
  {
    assert s[i] == s[i..i + |sub|][0] == sub[0];
    Utf8.BoundaryAt(s, i);
    assert s == s[..i] + (sub + s[i + |sub|..]);
    hide Utf8.RuneLen;
    Utf8.ValidConcat(s[..i], sub + s[i + |sub|..]);
    Utf8.ValidConcat(sub, s[i + |sub|..]);
  }

  /** Replacing valid text by valid text in a valid string leaves it valid, although the search compares bytes. */
  lemma {:induction false} ReplaceValid(s: Bytes, sub: Bytes, repl: Bytes, limit: Option<nat>)
    requires sub != [] && Utf8.Valid(s) && Utf8.Valid(sub) && Utf8.Valid(repl)
    ensures Utf8.Valid(Replace(s, sub, repl, limit))
    decreases |s|
  {
    hide Utf8.Valid, Utf8.RuneLen;
    if limit != Some(0) && Index(s, sub).Some? {
      var i := Index(s, sub).value;
      var less := if limit.Some? then Some(limit.value - 1) else None;
      var rest := s[i + |sub|..];
      AroundOccurrence(s, sub, i);
      ReplaceValid(rest, sub, repl, less);
      Utf8.ValidConcat(s[..i], repl);
      Utf8.ValidConcat(s[..i] + repl, Replace(rest, sub, repl, less));
    }
  }
}
