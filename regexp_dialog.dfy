/** The editing logic of the regular expression dialog: the tables of constructs and shortcuts,
    the text splicing done when one is chosen, the truncated popup labels, the numbered match
    preview and the list of items the expression matches. The regular expression engine is a
    parameter of the model. */
module RegexpDialog {
  import opened Wrappers
  import opened Lists

  /** The first column of the construct table. */
  const Constructs: seq<string> :=
    [".", "[]", "[^]", "()", "?", "*", "+", "{n}", "{min,}", "{min,max}", "|"]

  /** The caret adjustment table exactly as the dialog declares it: one entry more than there are
      constructs, and -5 for the disjunction "|". */
  const CaretAdjustmentAsWritten: seq<int> := [0, -1, -1, -1, 0, 0, 0, -1, -2, -1, -5, 0]

  /** The caret adjustment table with the disjunction's entry 0, as a one-character construct
      with no inner position needs; the dialog below uses the table as declared. */
  const CaretAdjustment: seq<int> := [0, -1, -1, -1, 0, 0, 0, -1, -2, -1, 0, 0]

  /** Which characters of a construct are selected after it is inserted. */
  const SelectionIndices: seq<(int, int)> :=
    [(1, 1), (1, 1), (2, 2), (1, 1), (1, 1), (1, 1), (1, 1), (1, 2), (1, 4), (1, 8), (1, 1)]

  /** Whether a construct is wrapped around the selected text instead of inserted. */
  const EncloseSelected: seq<bool> :=
    [false, true, true, true, false, false, false, false, false, false, false]

  /** The first column of the shortcut table. */
  const Shortcuts: seq<string> :=
    [".*", "[a-zA-Z]", "[a-z]", "[A-Z]", "[0-9]", "\\w", "\\W", "\\s", "\\S",
     "[-!\"#$%&'()*+,./:;<=>?@\\[\\\\\\]_`{|}~]"]

  /** The entries of the insertion popup: the constructs followed by the shortcuts. */
  function PopupItems(): seq<string>
  {
    Constructs + Shortcuts
  }

  /** Every table has an entry for every construct row, and the selection indices of each row lie
      within its construct, so every substring the construct handler takes is in range. */
  lemma TablesConsistent()
    ensures |Constructs| == 11 && |SelectionIndices| == 11 && |EncloseSelected| == 11
    ensures |CaretAdjustment| >= 11 && |CaretAdjustmentAsWritten| >= 11
    ensures forall row :: 0 <= row < 11 ==>
      0 <= SelectionIndices[row].0 <= SelectionIndices[row].1 <= |Constructs[row]|
    ensures forall row :: 0 <= row < 11 ==> |Constructs[row]| + CaretAdjustment[row] >= 0 && CaretAdjustment[row] <= 0
  {
    assert |Constructs[7]| == 3 && |Constructs[8]| == 6 && |Constructs[9]| == 9;
  }

  /** The label text of a popup entry: longer than 14 characters, it is cut to 14 and "..." is
      appended. */
  function PopupLabel(item: string): (r: string)
    ensures |r| <= 17
    ensures |item| <= 14 ==> r == item
    ensures |item| > 14 ==> |r| == 17 && r[..14] == item[..14] && r[14..] == "..."
  {
    if |item| > 14 then item[..14] + "..." else item
  }

  /** Of all popup entries only the punctuation shortcut, the last one, is cut. */
  lemma OnlyPunctuationTruncated()
    ensures |PopupItems()| == 21
    ensures forall i :: 0 <= i < 20 ==> PopupLabel(PopupItems()[i]) == PopupItems()[i]
    ensures PopupLabel(PopupItems()[20]) == "[-!\"#$%&'()*+,..."
  {
    assert |Shortcuts[9]| > 14;
    assert Shortcuts[9][..14] == "[-!\"#$%&'()*+,";
  }

  /** The plain insertion of ins at the cursor. */
  function Splice(text: string, cursor: int, ins: string): (r: string)
    requires 0 <= cursor <= |text|
    ensures |r| == |text| + |ins|
    ensures r[..cursor] == text[..cursor] && r[cursor..cursor + |ins|] == ins && r[cursor + |ins|..] == text[cursor..]
  {
    text[..cursor] + ins + (if cursor < |text| then text[cursor..] else "")
  }

  /** Taking the inserted text out again restores the original. */
  lemma SpliceRemovable(text: string, cursor: int, ins: string)
    requires 0 <= cursor <= |text|
    ensures Splice(text, cursor, ins)[..cursor] + Splice(text, cursor, ins)[cursor + |ins|..] == text
  {
    assert text == text[..cursor] + text[cursor..];
  }

  /** The construct split at k and wrapped around the selection [s, e). */
  function Enclose(text: string, s: int, e: int, ins: string, k: int): (r: string)
    requires 0 <= s <= e <= |text| && 0 <= k <= |ins|
    ensures |r| == |text| + |ins|
    ensures r[..s] == text[..s] && r[s..s + k] == ins[..k] && r[s + k..e + k] == text[s..e]
    ensures r[e + k..e + |ins|] == ins[k..] && r[e + |ins|..] == text[e..]
  {
    var r := text[..s] + ins[..k] + text[s..e] + ins[k..] + text[e..];
    assert r[s + k..e + k] == text[s..e];
    assert r[e + k..e + |ins|] == ins[k..];
    r
  }

  /** Taking the two halves of the construct out again restores the original. */
  lemma EncloseRemovable(text: string, s: int, e: int, ins: string, k: int)
    requires 0 <= s <= e <= |text| && 0 <= k <= |ins|
    ensures var r := Enclose(text, s, e, ins, k);
      r[..s] + r[s + k..e + k] + r[e + |ins|..] == text
  {
    assert text == text[..s] + text[s..e] + text[e..];
  }

  /** For every enclosing construct the selection set afterwards covers exactly the text that
      was selected before. */
  lemma EnclosedTextReselected(text: string, s: int, e: int, row: int)
    requires 0 <= row < |Constructs| && EncloseSelected[row] && 0 <= s <= e <= |text|
    ensures SelectionIndices[row].0 <= |Constructs[row]|
    ensures Enclose(text, s, e, Constructs[row], SelectionIndices[row].0)[s + SelectionIndices[row].0..e + SelectionIndices[row].1]
      == text[s..e]
  {
    TablesConsistent();
    assert row == 1 || row == 2 || row == 3;
  }

  /** The caret position the plain construct insertion asks for, with a given adjustment table. */
  function PlainCaret(adjustment: seq<int>, row: int, cursor: int): int
    requires 0 <= row < |Constructs| && row < |adjustment|
  {
    cursor + |Constructs[row]| + adjustment[row]
  }

  /** As written, inserting the disjunction with the cursor before the fifth character asks for a
      negative caret position, which JTextComponent.setCaretPosition rejects with an
      IllegalArgumentException: at the start of an empty field the position is -4. */
  lemma DisjunctionCaretNegativeAsWritten(cursor: int)
    requires 0 <= cursor < 4
    ensures PlainCaret(CaretAdjustmentAsWritten, 10, cursor) == cursor - 4 < 0
    ensures PlainCaret(CaretAdjustmentAsWritten, 10, 0) == -4
  {
  }

  /** As declared, the table makes the plain insertion ask for a position outside the new text
      exactly for the disjunction with the cursor before the fifth character. */
  lemma AsWrittenCaretRejected(text: string, row: int, cursor: int)
    requires 0 <= row < |Constructs| && 0 <= cursor <= |text|
    ensures |CaretAdjustmentAsWritten| > row
    ensures !(0 <= PlainCaret(CaretAdjustmentAsWritten, row, cursor) <= |Splice(text, cursor, Constructs[row])|)
      <==> row == 10 && cursor < 4
  {
    TablesConsistent();
    assert row != 10 ==> CaretAdjustmentAsWritten[row] == CaretAdjustment[row];
    assert |Constructs[10]| == 1;
  }

  /** With the corrected table every plain construct insertion asks for a caret position inside
      the new text. */
  lemma PlainCaretInRange(text: string, row: int, cursor: int)
    requires 0 <= row < |Constructs| && 0 <= cursor <= |text|
    ensures 0 <= PlainCaret(CaretAdjustment, row, cursor) <= |Splice(text, cursor, Constructs[row])|
  {
    TablesConsistent();
  }

  /** A result row of the match preview: the matched text, its groups and its number, or the
      placeholder shown when nothing matched. */
  datatype MatchResult = MatchResult(matched: string, groups: seq<Option<string>>, number: int) | NoMatch

  /** One match reported by Matcher.find: its bounds and its groups. */
  datatype Match = Match(start: int, end: int, groups: seq<Option<string>>)

  /** Matcher.find reports matches inside the text. */
  predicate InText(matches: seq<Match>, text: string)
  {
    forall i :: 0 <= i < |matches| ==> 0 <= matches[i].start && matches[i].end <= |text|
  }

  /** The matches the preview keeps: the non-empty ones, in order. */
  function Kept(matches: seq<Match>): seq<Match>
  {
    Filter(matches, NonEmpty())
  }

  /** The test the preview applies to each match. */
  function NonEmpty(): Match -> bool
  {
    (m: Match) => m.end > m.start
  }

  /** The preview rows for the kept matches, numbered from 1 in order. */
  function Numbered(text: string, kept: seq<Match>): (r: seq<MatchResult>)
    requires InText(kept, text)
    ensures |r| == |kept|
    ensures forall i :: 0 <= i < |kept| && kept[i].start <= kept[i].end ==>
      r[i] == MatchResult(text[kept[i].start..kept[i].end], kept[i].groups, i + 1)
    decreases |kept|
  {
    if kept == [] then []
    else
      var m := kept[|kept| - 1];
      var init := kept[..|kept| - 1];
      assert InText(init, text);
      Numbered(text, init) + [if m.start <= m.end then MatchResult(text[m.start..m.end], m.groups, |kept|) else NoMatch]
  }

  /** One pass of the preview loop over match i: a non-empty match is kept and numbered next,
      an empty one changes nothing. */
  lemma PreviewStep(text: string, matches: seq<Match>, i: int, kept: seq<Match>)
    requires InText(matches, text) && 0 <= i < |matches| && kept == Kept(matches[..i]) && InText(kept, text)
    ensures matches[i].end > matches[i].start ==>
      && Kept(matches[..i + 1]) == kept + [matches[i]]
      && InText(kept + [matches[i]], text)
      && Numbered(text, kept + [matches[i]])
         == Numbered(text, kept) + [MatchResult(text[matches[i].start..matches[i].end], matches[i].groups, |kept| + 1)]
    ensures matches[i].end <= matches[i].start ==> Kept(matches[..i + 1]) == kept
  {
    FilterSnoc(matches, i, NonEmpty());
    if matches[i].end > matches[i].start {
      NumberedSnoc(text, kept, matches[i]);
    }
  }

  /** After the loop: the rows numbered so far are the preview, unless nothing was kept. */
  lemma PreviewEnd(text: string, matches: seq<Match>, kept: seq<Match>)
    requires InText(matches, text) && kept == Kept(matches[..|matches|]) && InText(kept, text)
    ensures kept == [] ==> Numbered(text, kept) + [NoMatch] == Preview(text, matches)
    ensures kept != [] ==> Numbered(text, kept) == Preview(text, matches)
  {
    assert matches[..|matches|] == matches;
  }

  /** Numbering one more kept match appends its row, numbered after all the others. */
  lemma NumberedSnoc(text: string, kept: seq<Match>, m: Match)
    requires InText(kept, text) && 0 <= m.start <= m.end <= |text|
    ensures InText(kept + [m], text)
    ensures Numbered(text, kept + [m]) == Numbered(text, kept) + [MatchResult(text[m.start..m.end], m.groups, |kept| + 1)]
  {
    var all := kept + [m];
    forall i | 0 <= i < |all|
      ensures 0 <= all[i].start && all[i].end <= |text|
    {
      if i < |kept| { assert all[i] == kept[i]; }
    }
    assert all[|all| - 1] == m;
    assert all[..|all| - 1] == kept;
  }

  /** The preview list for a text: the numbered kept matches, or only the placeholder when no
      match was kept. */
  function Preview(text: string, matches: seq<Match>): seq<MatchResult>
    requires InText(matches, text)
  {
    KeptInText(matches, text);
    if Kept(matches) == [] then [NoMatch] else Numbered(text, Kept(matches))
  }

  lemma {:induction false} KeptInText(matches: seq<Match>, text: string)
    requires InText(matches, text)
    ensures InText(Kept(matches), text)
    ensures forall i :: 0 <= i < |Kept(matches)| ==> Kept(matches)[i].end > Kept(matches)[i].start
    decreases |matches|
  {
    if matches != [] {
      var init := matches[..|matches| - 1];
      assert InText(init, text);
      KeptInText(init, text);
    }
  }

  /** The preview holds the placeholder exactly when no non-empty match was found, and otherwise
      one row per non-empty match, numbered 1 to their count in order. */
  lemma PreviewShape(text: string, matches: seq<Match>)
    requires InText(matches, text)
    ensures (Preview(text, matches) == [NoMatch]) <==> Kept(matches) == []
    ensures Kept(matches) != [] ==> |Preview(text, matches)| == |Kept(matches)|
    ensures forall i :: 0 <= i < |Kept(matches)| ==>
      var m := Kept(matches)[i];
      0 <= m.start < m.end <= |text| && Preview(text, matches)[i] == MatchResult(text[m.start..m.end], m.groups, i + 1)
  {
    KeptInText(matches, text);
  }

  /** Once the loop has kept exactly one match, that match is the first the whole preview keeps. */
  lemma FirstKept(matches: seq<Match>, i: int)
    requires 0 <= i <= |matches| && |Kept(matches[..i])| == 1
    ensures |Kept(matches)| >= 1 && Kept(matches)[..1] == Kept(matches[..i])
  {
    assert matches == matches[..i] + matches[i..];
    FilterAppend(matches[..i], matches[i..], NonEmpty());
  }

  /** A match is previewed exactly when it is non-empty. */
  lemma KeptIffNonEmpty(matches: seq<Match>, m: Match)
    ensures m in Kept(matches) <==> m in matches && m.end > m.start
  {
    FilterMembers(matches, NonEmpty(), m);
  }

  /** The items a valid expression fully matches, in their original order. */
  function Matching(items: seq<string>, pattern: string, fullyMatches: (string, string) -> bool): seq<string>
  {
    Filter(items, MatchedBy(pattern, fullyMatches))
  }

  /** The test the matched-items list applies to each item. */
  function MatchedBy(pattern: string, fullyMatches: (string, string) -> bool): string -> bool
  {
    item => fullyMatches(pattern, item)
  }

  /** An item is listed exactly when the expression matches all of it. */
  lemma MatchingMembers(items: seq<string>, pattern: string, fullyMatches: (string, string) -> bool, x: string)
    ensures x in Matching(items, pattern, fullyMatches) <==> x in items && fullyMatches(pattern, x)
  {
    FilterMembers(items, MatchedBy(pattern, fullyMatches), x);
  }

  /** The errors of the handlers: no table row selected (getValueAt(-1, 0)), the
      IllegalArgumentException of a caret position outside the text, and the
      IllegalArgumentException or IndexOutOfBoundsException of appendReplacement on a replacement
      text the pattern cannot fill (a lone "$", a group it lacks, a trailing backslash). */
  datatype DialogError = NoRowSelected | BadCaretPosition | BadReplacement

  /** The dialog: the expression text field (its text and Swing's caret dot and mark), the
      preview list, the matched-items list and the state of the OK button. */
  class RegexpPropertyDialog {
    var text: string
    var dot: int
    var mark: int
    var results: seq<MatchResult>
    var matchedItems: seq<string>
    var okEnabled: bool
    const items: seq<string>
    const supportsItems: bool
    /** Pattern.compile succeeds. */
    const compiles: string -> bool
    /** Pattern.matcher(item).matches(). */
    const fullyMatches: (string, string) -> bool

    ghost predicate Valid()
      reads this
    {
      0 <= dot <= |text| && 0 <= mark <= |text|
    }

    function SelectionStart(): int
      reads this
    {
      if dot < mark then dot else mark
    }

    function SelectionEnd(): int
      reads this
    {
      if dot < mark then mark else dot
    }

    /** getSelectedText() is non-null. */
    function HasSelection(): (r: bool)
      reads this
      ensures r <==> SelectionStart() < SelectionEnd()
    {
      dot != mark
    }

    /** setText: the caret goes to the end of the new text. */
    method SetText(t: string)
      modifies this`text, this`dot, this`mark
      ensures Valid() && text == t && dot == |t| && mark == |t|
    {
      text := t;
      dot := |t|;
      mark := |t|;
    }

    /** setCaretPosition: a position outside the text is rejected; otherwise the caret moves there
        and the selection collapses. */
    method SetCaretPosition(p: int) returns (r: Outcome<DialogError>)
      requires Valid()
      modifies this`dot, this`mark
      ensures Valid()
      ensures (p < 0 || p > |text|) ==> r == Fail(BadCaretPosition) && dot == old(dot) && mark == old(mark)
      ensures 0 <= p <= |text| ==> r == Pass && dot == p && mark == p
    {
      if p < 0 || p > |text| {
        return Fail(BadCaretPosition);
      }
      dot, mark := p, p;
      return Pass;
    }

    /** JTextComponent.select: both ends are clamped to the text, the end is raised to the start,
        and the caret ends at the end. */
    method Select(start: int, end: int)
      requires Valid()
      modifies this`dot, this`mark
      ensures Valid()
      ensures mark == Clamp(start, |text|) && dot == if Clamp(end, |text|) < mark then mark else Clamp(end, |text|)
    {
      var s := Clamp(start, |text|);
      var e := if end > |text| then |text| else end;
      if e < s {
        e := s;
      }
      mark, dot := s, e;
    }

    method SetSelectionStart(start: int)
      requires Valid()
      modifies this`dot, this`mark
      ensures Valid() && SelectionStart() <= SelectionEnd()
      ensures mark == Clamp(start, |text|) && dot == Above(Clamp(old(SelectionEnd()), |text|), mark)
    {
      Select(start, SelectionEnd());
    }

    method SetSelectionEnd(end: int)
      requires Valid()
      modifies this`dot, this`mark
      ensures Valid()
      ensures mark == Clamp(old(SelectionStart()), |text|) && dot == Above(Clamp(end, |text|), mark)
    {
      Select(SelectionStart(), end);
    }

    /** The state fireRegularExpressionUpdated leaves for the current text, given the matched items
        before it ran: OK is enabled exactly when the expression compiles, and a dialog with items
        lists the ones it fully matches (none when it does not compile). */
    ghost predicate Refreshed(before: seq<string>)
      reads this
    {
      && okEnabled == compiles(text)
      && (supportsItems ==> matchedItems == if compiles(text) then Matching(items, text, fullyMatches) else [])
      && (!supportsItems ==> matchedItems == before)
    }

    /** fireRegularExpressionUpdated: the matched-items list is refilled with the items the
        expression fully matches (none if it does not compile), and OK is enabled exactly when it
        compiles. */
    method FireRegularExpressionUpdated()
      modifies this`matchedItems, this`okEnabled
      ensures Refreshed(old(matchedItems))
    {
      var pattern := text;
      var valid := compiles(pattern);
      if supportsItems {
        matchedItems := [];
        if valid {
          var i := 0;
          while i < |items|
            invariant 0 <= i <= |items|
            invariant matchedItems == Matching(items[..i], pattern, fullyMatches)
          {
            FilterSnoc(items, i, MatchedBy(pattern, fullyMatches));
            if fullyMatches(pattern, items[i]) {
              matchedItems := matchedItems + [items[i]];
            }
            i := i + 1;
          }
          assert items[..i] == items;
        }
      }
      okEnabled := valid;
    }

    /** checkDocument on the inline preview: the result list is cleared and refilled from the
        matches found in the text; empty matches are skipped and the others numbered from 1.
        replacementValid says whether appendReplacement accepts the replacement text for this
        pattern (it depends on neither the match nor the text). When it does not, the exception
        escapes right after the first kept match's row is added: the list holds that row alone
        and no placeholder. */
    method CheckDocument(previewText: string, matches: seq<Match>, replacementValid: bool) returns (r: Outcome<DialogError>)
      requires InText(matches, previewText)
      modifies this`results
      ensures replacementValid || Kept(matches) == [] ==> r == Pass && results == Preview(previewText, matches)
      ensures !replacementValid && Kept(matches) != [] ==>
        && r == Fail(BadReplacement)
        && InText(Kept(matches)[..1], previewText)
        && results == Numbered(previewText, Kept(matches)[..1])
    {
      results := [];
      var count := 0;
      var i := 0;
      ghost var kept: seq<Match> := [];
      while i < |matches|
        invariant 0 <= i <= |matches| && kept == Kept(matches[..i]) && count == |kept|
        invariant InText(kept, previewText)
        invariant results == Numbered(previewText, kept)
        invariant !replacementValid ==> kept == []
      {
        var m := matches[i];
        PreviewStep(previewText, matches, i, kept);
        if m.end > m.start {
          results := results + [MatchResult(previewText[m.start..m.end], m.groups, count + 1)];
          kept := kept + [m];
          if !replacementValid {
            FirstKept(matches, i + 1);
            return Fail(BadReplacement);
          }
          count := count + 1;
        }
        i := i + 1;
      }
      PreviewEnd(previewText, matches, kept);
      assert matches[..i] == matches;
      if count == 0 {
        results := results + [NoMatch];
      }
      return Pass;
    }

    /** The insertion action, the shortcut table and the item list: the text is inserted at the
        caret and the caret placed after it. */
    method InsertAtCursor(ins: string)
      requires Valid()
      modifies this`text, this`dot, this`mark, this`matchedItems, this`okEnabled
      ensures Valid()
      ensures text == Splice(old(text), old(dot), ins)
      ensures dot == old(dot) + |ins| && mark == dot
      ensures Refreshed(old(matchedItems))
    {
      var cursorPosition := dot;
      SetText(Splice(text, cursorPosition, ins));
      var r := SetCaretPosition(cursorPosition + |ins|);
      FireRegularExpressionUpdated();
    }

    /** A double click in the shortcut table. */
    method ShortcutClicked(row: int) returns (r: Outcome<DialogError>)
      requires Valid()
      modifies this`text, this`dot, this`mark, this`matchedItems, this`okEnabled
      ensures Valid()
      ensures !(0 <= row < |Shortcuts|) ==> r == Fail(NoRowSelected) && unchanged(this)
      ensures 0 <= row < |Shortcuts| ==>
        && r == Pass && text == Splice(old(text), old(dot), Shortcuts[row])
        && dot == old(dot) + |Shortcuts[row]| && mark == dot && Refreshed(old(matchedItems))
    {
      if !(0 <= row < |Shortcuts|) {
        return Fail(NoRowSelected);
      }
      InsertAtCursor(Shortcuts[row]);
      return Pass;
    }

    /** A double click in the item list: only an index inside the list inserts. */
    method ItemClicked(index: int)
      requires Valid()
      modifies this`text, this`dot, this`mark, this`matchedItems, this`okEnabled
      ensures Valid()
      ensures !(0 <= index < |items|) ==> unchanged(this)
      ensures 0 <= index < |items| ==>
        && text == Splice(old(text), old(dot), items[index])
        && dot == old(dot) + |items[index]| && mark == dot && Refreshed(old(matchedItems))
    {
      if index > -1 && index < |items| {
        InsertAtCursor(items[index]);
      }
    }

    /** The enclosing branch of the construct handler. */
    method EncloseConstruct(row: int) returns (r: Outcome<DialogError>)
      requires Valid() && 0 <= row < |Constructs| && EncloseSelected[row] && HasSelection()
      modifies this`text, this`dot, this`mark
      ensures Valid() && r == Pass
      ensures text == Enclose(old(text), old(SelectionStart()), old(SelectionEnd()), Constructs[row], SelectionIndices[row].0)
      ensures mark == old(SelectionStart()) + SelectionIndices[row].0
      ensures dot == old(SelectionEnd()) + SelectionIndices[row].1
    {
      TablesConsistent();
      var insertionString := Constructs[row];
      var k, l := SelectionIndices[row].0, SelectionIndices[row].1;
      var selectionStart, selectionEnd := SelectionStart(), SelectionEnd();
      SetText(Enclose(text, selectionStart, selectionEnd, insertionString, k));
      assert CaretAdjustmentAsWritten[row] == CaretAdjustment[row];
      r := SetCaretPosition(selectionEnd - CaretAdjustmentAsWritten[row]);
      SetSelectionStart(selectionStart + k);
      SetSelectionEnd(selectionEnd + l);
    }

    /** The inserting branch of the construct handler. With the table as declared, the
        disjunction before the fifth character makes setCaretPosition throw once the new text is
        set: the caret stays at its end and no selection is made. */
    method InsertConstruct(row: int) returns (r: Outcome<DialogError>)
      requires Valid() && 0 <= row < |Constructs|
      modifies this`text, this`dot, this`mark
      ensures Valid()
      ensures text == Splice(old(text), old(dot), Constructs[row])
      ensures row == 10 && old(dot) < 4 ==> r == Fail(BadCaretPosition) && dot == |text| && mark == |text|
      ensures !(row == 10 && old(dot) < 4) ==>
        && r == Pass
        && mark == old(dot) + SelectionIndices[row].0
        && dot == old(dot) + SelectionIndices[row].1
    {
      TablesConsistent();
      var insertionString := Constructs[row];
      var k, l := SelectionIndices[row].0, SelectionIndices[row].1;
      var cursorPosition := dot;
      SetText(Splice(text, cursorPosition, insertionString));
      AsWrittenCaretRejected(old(text), row, cursorPosition);
      r := SetCaretPosition(cursorPosition + |insertionString| + CaretAdjustmentAsWritten[row]);
      if r.Fail? {
        return;
      }
      SetSelectionStart(cursorPosition + k);
      SetSelectionEnd(cursorPosition + l);
    }

    /** A double click in the construct table. A construct that encloses is wrapped around a
        non-empty selection and the enclosed text is selected again; otherwise it is inserted at
        the caret and its inner characters are selected. The exception of the disjunction's caret
        leaves the handler before the matched items are updated. */
    method ConstructClicked(row: int) returns (r: Outcome<DialogError>)
      requires Valid()
      modifies this`text, this`dot, this`mark, this`matchedItems, this`okEnabled
      ensures Valid()
      ensures !(0 <= row < |Constructs|) ==> r == Fail(NoRowSelected) && unchanged(this)
      ensures 0 <= row < |Constructs| && EncloseSelected[row] && old(HasSelection()) ==>
        && r == Pass
        && text == Enclose(old(text), old(SelectionStart()), old(SelectionEnd()), Constructs[row], SelectionIndices[row].0)
        && mark == old(SelectionStart()) + SelectionIndices[row].0
        && dot == old(SelectionEnd()) + SelectionIndices[row].1
        && Refreshed(old(matchedItems))
      ensures 0 <= row < |Constructs| && !(EncloseSelected[row] && old(HasSelection())) ==>
        text == Splice(old(text), old(dot), Constructs[row])
      ensures 0 <= row < |Constructs| && !(EncloseSelected[row] && old(HasSelection())) && !(row == 10 && old(dot) < 4) ==>
        && r == Pass
        && mark == old(dot) + SelectionIndices[row].0
        && dot == old(dot) + SelectionIndices[row].1
        && Refreshed(old(matchedItems))
      ensures row == 10 && old(dot) < 4 ==>
        && r == Fail(BadCaretPosition) && dot == |text| && mark == |text|
        && matchedItems == old(matchedItems) && okEnabled == old(okEnabled)
    {
      if !(0 <= row < |Constructs|) {
        return Fail(NoRowSelected);
      }
      if EncloseSelected[row] && HasSelection() {
        r := EncloseConstruct(row);
      } else {
        r := InsertConstruct(row);
        if r.Fail? {
          return;
        }
      }
      FireRegularExpressionUpdated();
    }
  }

  /** A position clamped to [0, length]. */
  function Clamp(p: int, length: int): (r: int)
    requires length >= 0
    ensures 0 <= r <= length
    ensures 0 <= p <= length ==> r == p
  {
    if p < 0 then 0 else if p > length then length else p
  }

  /** p raised to at least floor. */
  function Above(p: int, floor: int): int
  {
    if p < floor then floor else p
  }
}
