/** The text that a successful MCP result is summarised to, within a limit on its sections. */
module McpSummary {
  import opened Common
  import Utf8

  const MAX_ITEMS: nat := 64
  const MAX_BYTES: nat := 256 * 1024

  function Clean(value: Bytes): Bytes { Utf8.ToValid(value, false) }

  /** boundedMCPSection: the longest valid prefix of the repaired text that fits. */
  method BoundedSection(value: Bytes, limit: int) returns (section: Bytes, truncated: bool)
    ensures section <= Clean(value) && Utf8.Valid(section) && (limit >= 0 ==> |section| <= limit)
    ensures truncated <==> section != Clean(value)
    ensures limit >= 0 ==> (truncated <==> |Clean(value)| > limit)
    ensures forall u :: u <= Clean(value) && |section| < |u| <= limit ==> !Utf8.Valid(u)
    ensures truncated ==> |section| + 3 >= limit
  {
    hide Utf8.Valid, Utf8.ToValid, Utf8.Cut;
    var clean := Clean(value);
    if limit <= 0 {
      EmptyValid();
      return [], clean != [];
    }
    if |clean| <= limit {
      return clean, false;
    }
    section := Utf8.TrimToValid(clean, limit);
    truncated := true;
  }

  lemma EmptyValid()
    ensures Utf8.Valid([])
  {
  }

  function Total(sections: seq<Bytes>): nat {
    if sections == [] then 0 else Total(sections[..|sections| - 1]) + |sections[|sections| - 1]|
  }

  /** The repaired texts that are not empty, in order. */
  function Visible(texts: seq<Bytes>): seq<Bytes> {
    if texts == [] then []
    else
      var rest, text := Visible(texts[..|texts| - 1]), Clean(texts[|texts| - 1]);
      if text == [] then rest else rest + [text]
  }

  lemma TotalSnoc(sections: seq<Bytes>, section: Bytes)
    ensures Total(sections + [section]) == Total(sections) + |section|
  {
    assert (sections + [section])[..|sections|] == sections;
  }

  lemma VisibleSnoc(texts: seq<Bytes>, text: Bytes)
    ensures Visible(texts + [text]) == if Clean(text) == [] then Visible(texts) else Visible(texts) + [Clean(text)]
  {
    assert (texts + [text])[..|texts|] == texts;
  }

  lemma NoSections()
    ensures Total([]) == 0 && Visible([]) == []
  {
  }

  lemma {:induction false} VisibleAppend(texts: seq<Bytes>, more: seq<Bytes>)
    ensures Visible(texts + more) == Visible(texts) + Visible(more)
    ensures Total(Visible(texts + more)) == Total(Visible(texts)) + Total(Visible(more))
    ensures Visible(more) != [] ==> Total(Visible(more)) > 0
  {
    hide Clean, Visible, Total;
    NoSections();
    if more == [] {
      assert texts + more == texts;
    } else {
      var front, last := more[..|more| - 1], more[|more| - 1];
      assert more == front + [last] && texts + more == texts + front + [last];
      VisibleAppend(texts, front);
      VisibleSnoc(texts + front, last);
      VisibleSnoc(front, last);
      if Clean(last) != [] {
        TotalSnoc(Visible(texts + front), Clean(last));
        TotalSnoc(Visible(front), Clean(last));
      }
    }
  }

  /** All the texts of a result: those of its content items, then its encoded structured content. */
  function All(items: seq<Bytes>, structured: Option<Bytes>): seq<Bytes> {
    items + if structured.Some? then [structured.value] else []
  }

  function Shown(items: seq<Bytes>): seq<Bytes> { if |items| > MAX_ITEMS then items[..MAX_ITEMS] else items }

  /** When the truncation marker comes. */
  predicate Marked(items: seq<Bytes>, structured: Option<Bytes>) {
    || |items| > MAX_ITEMS
    || Total(Visible(items)) >= MAX_BYTES
    || Total(Visible(All(items, structured))) > MAX_BYTES
  }

  /** When nothing that is visible is missing from the sections. */
  predicate Fits(items: seq<Bytes>, structured: Option<Bytes>) {
    && Visible(items[|Shown(items)|..]) == []
    && Total(Visible(All(items, structured))) <= MAX_BYTES
  }

  /** So far all is there, or something is missing because it did not fit. */
  predicate Accounted(sections: seq<Bytes>, texts: seq<Bytes>) {
    || sections == Visible(texts)
    || (Total(sections) < Total(Visible(texts)) && MAX_BYTES < Total(Visible(texts)))
  }

  /** One more text, or as much of it as fits. */
  lemma AccountedNext(sections: seq<Bytes>, texts: seq<Bytes>, text: Bytes, section: Bytes, after: seq<Bytes>)
    requires Accounted(sections, texts) && Total(sections) <= MAX_BYTES
    requires section <= Clean(text) && (section != Clean(text) ==> Total(sections) + |Clean(text)| > MAX_BYTES)
    requires after == if section == [] then sections else sections + [section]
    ensures Accounted(after, texts + [text]) && Total(after) == Total(sections) + |section|
    ensures after == Visible(texts + [text]) <==> sections == Visible(texts) && section == Clean(text)
  {
    hide Clean, Total, Visible;
    VisibleSnoc(texts, text);
    TotalSnoc(sections, section);
    TotalSnoc(Visible(texts), Clean(text));
  }

  lemma NothingMissing()
    ensures Accounted([], [])
  {
  }

  /** All texts, with the items that are not shown apart. */
  lemma AllSplit(items: seq<Bytes>, structured: Option<Bytes>)
    ensures var shown, hidden := Shown(items), items[|Shown(items)|..];
            var last := if structured.Some? then [structured.value] else [];
            && Visible(All(items, structured)) == Visible(shown) + Visible(hidden) + Visible(last)
            && Visible(All(shown, structured)) == Visible(shown) + Visible(last)
            && Total(Visible(All(items, structured))) ==
               Total(Visible(shown)) + Total(Visible(hidden)) + Total(Visible(last))
            && Total(Visible(All(shown, structured))) == Total(Visible(shown)) + Total(Visible(last))
            && Total(Visible(items)) == Total(Visible(shown)) + Total(Visible(hidden))
            && (Visible(hidden) != [] ==> Total(Visible(hidden)) > 0)
  {
    hide Visible, Total;
    var shown, hidden := Shown(items), items[|Shown(items)|..];
    var last := if structured.Some? then [structured.value] else [];
    assert items == shown + hidden;
    VisibleAppend(shown, hidden);
    VisibleAppend(items, last);
    VisibleAppend(shown, last);
  }

  /** The limit is reached after n items. */
  lemma Filled(items: seq<Bytes>, structured: Option<Bytes>, sections: seq<Bytes>, n: nat)
    requires n <= |Shown(items)| && Accounted(sections, Shown(items)[..n]) && Total(sections) == MAX_BYTES
    ensures Marked(items, structured)
    ensures sections == Visible(All(items, structured)) <==> Fits(items, structured)
  {
    hide Visible, Total;
    var texts, rest, hidden := Shown(items)[..n], items[n..], items[|Shown(items)|..];
    var last := if structured.Some? then [structured.value] else [];
    assert items == texts + rest && rest == Shown(items)[n..] + hidden;
    VisibleAppend(texts, rest);
    VisibleAppend(Shown(items)[n..], hidden);
    VisibleAppend(items, last);
    NoSections();
  }

  /** All items that are shown, and the structured content, were looked at. */
  lemma Finished(items: seq<Bytes>, structured: Option<Bytes>, sections: seq<Bytes>)
    requires Accounted(sections, All(Shown(items), structured)) && Total(sections) <= MAX_BYTES
    requires sections == Visible(All(Shown(items), structured)) ==> Total(Visible(Shown(items))) < MAX_BYTES
    ensures sections == Visible(All(items, structured)) <==> Fits(items, structured)
    ensures Marked(items, structured) <==> |items| > MAX_ITEMS || sections != Visible(All(Shown(items), structured))
  {
    hide Visible, Total;
    AllSplit(items, structured);
    NoSections();
  }

  /**
   When the marker comes although nothing is missing: some items beyond the number shown have no text, or the visible
   items fill the limit exactly and there is no structured content, or none that is visible.
   */
  lemma MarkerWithoutLoss(items: seq<Bytes>, structured: Option<Bytes>)
    ensures Marked(items, structured) && Fits(items, structured) <==>
              Fits(items, structured) && (|items| > MAX_ITEMS || Total(Visible(items)) == MAX_BYTES)
    ensures |items| <= MAX_ITEMS ==>
              (Marked(items, structured) && Fits(items, structured) <==>
                Total(Visible(items)) == MAX_BYTES && (structured.Some? ==> Clean(structured.value) == []))
  {
    hide Visible, Total, Clean;
    AllSplit(items, structured);
    NoSections();
    if structured.Some? {
      VisibleSnoc([], structured.value);
      TotalSnoc([], Clean(structured.value));
      assert [] + [structured.value] == [structured.value];
      assert [] + [Clean(structured.value)] == [Clean(structured.value)];
    }
  }

  lemma {:induction false} PlainText(n: nat)
    ensures Utf8.Valid(seq(n, _ => 97))
  {
    if n > 0 {
      PlainText(n - 1);
      var text: Bytes := seq(n, _ => 97);
      assert text[1..] == seq(n - 1, _ => 97);
    }
  }

  /** So it comes for a single text that fills the limit. */
  lemma FullItemMarked() returns (text: Bytes)
    ensures Utf8.Valid(text) && |text| == MAX_BYTES && Marked([text], None) && Fits([text], None)
  {
    hide Utf8.Valid, Utf8.ToValid, Visible, Total;
    text := seq(MAX_BYTES, _ => 97);
    PlainText(MAX_BYTES);
    Utf8.RepairIdentity(text);
    NoSections();
    VisibleSnoc([], text);
    TotalSnoc([], text);
    assert [] + [text] == [text];
    assert [text][1..] == [] && All([text], None) == [text];
  }

  /**
   The sections of summarizeMCPSuccess, and whether the truncation marker follows them: the texts of the content items,
   then the encoded structured content. Everything is there in full exactly when no visible item is beyond the number
   of items shown and the whole fits into the limit; MarkerWithoutLoss says when the marker comes nevertheless.
   */
  method Summarize(items: seq<Bytes>, structured: Option<Bytes>) returns (sections: seq<Bytes>, truncated: bool)
    ensures Total(sections) <= MAX_BYTES && forall s :: s in sections ==> s != [] && Utf8.Valid(s)
    ensures truncated <==> Marked(items, structured)
    ensures sections == Visible(All(items, structured)) <==> Fits(items, structured)
    ensures !truncated ==> sections == Visible(All(items, structured))
    ensures truncated ==> |items| > MAX_ITEMS || Total(sections) + 3 >= MAX_BYTES
  {
    hide Utf8.Valid, Clean, Total, Visible, Accounted;
    NoSections();
    sections, truncated := [], false;
    var total := 0;
    var shown := items;
    if |items| > MAX_ITEMS {
      shown, truncated := items[..MAX_ITEMS], true;
    }
    assert Accounted([], shown[..0]) by { NothingMissing(); }
    for i := 0 to |shown|
      invariant total == Total(sections) && total < MAX_BYTES
      invariant forall s :: s in sections ==> s != [] && Utf8.Valid(s)
      invariant Accounted(sections, shown[..i])
      invariant truncated <==> |items| > MAX_ITEMS || sections != Visible(shown[..i])
      invariant truncated ==> |items| > MAX_ITEMS || total + 3 >= MAX_BYTES
    {
      var section, cut := BoundedSection(shown[i], MAX_BYTES - total);
      ghost var was := sections;
      assert shown[..i + 1] == shown[..i] + [shown[i]];
      truncated := truncated || cut;
      if section != [] {
        sections := sections + [section];
        total := total + |section|;
      }
      AccountedNext(was, shown[..i], shown[i], section, sections);
      if total >= MAX_BYTES {
        truncated := true;
        Filled(items, structured, sections, i + 1);
        return;
      }
    }
    assert shown[..|shown|] == shown == Shown(items);
    if structured.None? {
      assert All(shown, structured) == shown;
      Finished(items, structured, sections);
    } else {
      var section, cut := BoundedSection(structured.value, MAX_BYTES - total);
      ghost var was := sections;
      truncated := truncated || cut;
      if section != [] {
        sections := sections + [section];
      }
      AccountedNext(was, shown, structured.value, section, sections);
      Finished(items, structured, sections);
    }
  }
}
