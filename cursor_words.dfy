/**
 * The word scan shared by both `getSelectedWord` resolvers: an `exec` loop
 * over the words of a line, with an inner loop over each match array, that
 * stops at the first word whose FIRST occurrence on the line (`indexOf`)
 * covers the cursor column. The newer resolver accepts the column anywhere
 * from the word's start to just past its end; the older one only strictly
 * inside.
 */
module CursorWords {
  import opened Text
  import opened Regex

  /** The expressions the resolvers scan with: the newer one's `Word` and the older one's `Ident`. */
  predicate IsWordPattern(pat: Pattern)
  {
    pat == Word || pat == Ident
  }

  /**
   * The first occurrence of `w` on the line covers column `useChar`:
   * `idx <= useChar <= idx + length` (or `idx < useChar < idx + length` when `strict`).
   */
  predicate Covers(line: String, w: String, useChar: nat, strict: bool)
  {
    var idx := IndexOf(line, w, 0);
    idx != -1 &&
    if strict then idx < useChar < idx + |w| else idx <= useChar <= idx + |w|
  }

  /** The inner loop: the first entry of a match array that covers the column. */
  function CoveringGroup(line: String, groups: seq<String>, useChar: nat, strict: bool): Option<String>
  {
    if |groups| == 0 then None
    else if Covers(line, groups[0], useChar, strict) then Some(groups[0])
    else CoveringGroup(line, groups[1..], useChar, strict)
  }

  /** The outer loop: the word of the first match with a covering entry, or `""`. */
  function FirstCovering(line: String, ms: seq<Match>, useChar: nat, strict: bool): String
  {
    if |ms| == 0 then ""
    else match CoveringGroup(line, ms[0].groups, useChar, strict)
      case Some(w) => w
      case None => FirstCovering(line, ms[1..], useChar, strict)
  }

  /** A match of either word expression is one non-empty word and nothing else. */
  lemma WordGroups(pat: Pattern, line: String, p: nat)
    requires IsWordPattern(pat) && p <= |line| && MatchAt(pat, line, p).Some?
    ensures |MatchAt(pat, line, p).value| == 1 && MatchAt(pat, line, p).value[0] != []
  {
  }

  /**
   * The loop over the words of `line` from `lastIndex == from`: the first
   * covering word and its first offset, or `""` when no word covers the
   * column.
   */
  method ScanWords(pat: Pattern, line: String, from: nat, useChar: nat, strict: bool) returns (name: String, idx: int)
    requires IsWordPattern(pat)
    ensures name == FirstCovering(line, ExecAll(pat, line, from), useChar, strict)
    ensures name != "" ==> 0 <= idx == IndexOf(line, name, 0)
  {
    name := "";
    idx := -1;
    var lastIndex: nat := from;
    var m := NextMatch(pat, line, lastIndex);
    while m.Some?
      invariant m == NextMatch(pat, line, lastIndex)
      invariant FirstCovering(line, ExecAll(pat, line, from), useChar, strict) ==
                FirstCovering(line, ExecAll(pat, line, lastIndex), useChar, strict)
      decreases |line| + 1 - lastIndex
    {
      var mv := m.value;
      ExecStep(pat, line, lastIndex);
      WordGroups(pat, line, mv.index);
      var found, k := CoverGroups(line, mv.groups, useChar, strict);
      if found.Some? {
        name := found.value;
        idx := k;
        assert [mv] + ExecAll(pat, line, mv.End()) == ExecAll(pat, line, lastIndex);
        return;
      }
      assert ([mv] + ExecAll(pat, line, mv.End()))[1..] == ExecAll(pat, line, mv.End());
      lastIndex := mv.End();
      m := NextMatch(pat, line, lastIndex);
    }
    ExecStep(pat, line, lastIndex);
  }

  /** The inner `for` loop over a match array: the first covering entry and its first offset. */
  method CoverGroups(line: String, groups: seq<String>, useChar: nat, strict: bool) returns (found: Option<String>, idx: int)
    ensures found == CoveringGroup(line, groups, useChar, strict)
    ensures found.Some? ==> 0 <= idx == IndexOf(line, found.value, 0)
  {
    found := None;
    idx := -1;
    var i := 0;
    while i < |groups|
      invariant i <= |groups|
      invariant CoveringGroup(line, groups, useChar, strict) == CoveringGroup(line, groups[i..], useChar, strict)
    {
      var k := IndexOf(line, groups[i], 0);
      if k != -1 {
        if (strict && k < useChar && useChar < k + |groups[i]|) || (!strict && k <= useChar && k + |groups[i]| >= useChar) {
          found := Some(groups[i]);
          idx := k;
          return;
        }
      }
      assert groups[i..][1..] == groups[i + 1..];
      i := i + 1;
    }
  }

  /**
   * The inner loop's choice: a covering entry of the array, and no entry
   * before it covers the column; with no choice, no entry covers it.
   */
  lemma {:induction false} CoveringGroupSpec(line: String, groups: seq<String>, useChar: nat, strict: bool)
    ensures var r := CoveringGroup(line, groups, useChar, strict);
      (r.None? ==> forall j :: 0 <= j < |groups| ==> !Covers(line, groups[j], useChar, strict)) &&
      (r.Some? ==>
        exists j ::
          0 <= j < |groups| && groups[j] == r.value && Covers(line, r.value, useChar, strict) &&
          forall k :: 0 <= k < j ==> !Covers(line, groups[k], useChar, strict))
  {
    if |groups| > 0 && !Covers(line, groups[0], useChar, strict) {
      var rest := groups[1..];
      CoveringGroupSpec(line, rest, useChar, strict);
      var r := CoveringGroup(line, groups, useChar, strict);
      if r.Some? {
        var j :| 0 <= j < |rest| && rest[j] == r.value && Covers(line, r.value, useChar, strict) &&
                 forall k :: 0 <= k < j ==> !Covers(line, rest[k], useChar, strict);
        assert groups[j + 1] == rest[j];
        assert forall k :: 1 <= k < j + 1 ==> groups[k] == rest[k - 1];
      } else {
        assert forall j :: 1 <= j < |groups| ==> groups[j] == rest[j - 1];
      }
    }
  }

  /**
   * The outer loop's choice: the word chosen is a covering entry of some
   * match, and no earlier match has one; `""` means no match has one.
   */
  lemma {:induction false} FirstCoveringSpec(line: String, ms: seq<Match>, useChar: nat, strict: bool)
    ensures var w := FirstCovering(line, ms, useChar, strict);
      (forall i :: 0 <= i < |ms| ==> CoveringGroup(line, ms[i].groups, useChar, strict).None?) ||
      exists i :: 0 <= i < |ms| && CoveringGroup(line, ms[i].groups, useChar, strict) == Some(w) &&
        forall k :: 0 <= k < i ==> CoveringGroup(line, ms[k].groups, useChar, strict).None?
    ensures (forall i :: 0 <= i < |ms| ==> CoveringGroup(line, ms[i].groups, useChar, strict).None?) ==>
      FirstCovering(line, ms, useChar, strict) == ""
  {
    if |ms| > 0 && CoveringGroup(line, ms[0].groups, useChar, strict).None? {
      var rest := ms[1..];
      FirstCoveringSpec(line, rest, useChar, strict);
      assert forall i :: 1 <= i < |ms| ==> ms[i] == rest[i - 1];
      var w := FirstCovering(line, ms, useChar, strict);
      if !(forall i :: 0 <= i < |rest| ==> CoveringGroup(line, rest[i].groups, useChar, strict).None?) {
        var i :| 0 <= i < |rest| && CoveringGroup(line, rest[i].groups, useChar, strict) == Some(w) &&
                 forall k :: 0 <= k < i ==> CoveringGroup(line, rest[k].groups, useChar, strict).None?;
        assert ms[i + 1] == rest[i];
      }
    }
  }

  /** Under the strict test nothing covers column 0: no word can start before it. */
  lemma {:induction false} NothingCoversZero(line: String, ms: seq<Match>)
    ensures FirstCovering(line, ms, 0, true) == ""
  {
    forall i | 0 <= i < |ms| ensures CoveringGroup(line, ms[i].groups, 0, true).None? {
      CoveringGroupSpec(line, ms[i].groups, 0, true);
    }
    FirstCoveringSpec(line, ms, 0, true);
  }

  /**
   * When every match is a single non-empty word: the word chosen is the
   * first one whose first occurrence covers the column, and `""` means none
   * does.
   */
  lemma FirstWordSpec(line: String, ms: seq<Match>, useChar: nat, strict: bool)
    requires forall i :: 0 <= i < |ms| ==> |ms[i].groups| == 1 && ms[i].groups[0] != []
    ensures var w := FirstCovering(line, ms, useChar, strict);
      (w == "" ==> forall i :: 0 <= i < |ms| ==> !Covers(line, ms[i].groups[0], useChar, strict)) &&
      (w != "" ==>
        exists i :: 0 <= i < |ms| && ms[i].groups == [w] && Covers(line, w, useChar, strict) &&
          forall k :: 0 <= k < i ==> !Covers(line, ms[k].groups[0], useChar, strict))
  {
    var w := FirstCovering(line, ms, useChar, strict);
    FirstCoveringSpec(line, ms, useChar, strict);
    forall i | 0 <= i < |ms|
      ensures CoveringGroup(line, ms[i].groups, useChar, strict) ==
        if Covers(line, ms[i].groups[0], useChar, strict) then Some(ms[i].groups[0]) else None
    {
      assert ms[i].groups[1..] == [];
    }
    if w != "" {
      var i :| 0 <= i < |ms| && CoveringGroup(line, ms[i].groups, useChar, strict) == Some(w) &&
               forall k :: 0 <= k < i ==> CoveringGroup(line, ms[k].groups, useChar, strict).None?;
      assert ms[i].groups == [ms[i].groups[0]];
    }
  }

  /** Every match the scan visits is a single non-empty word. */
  lemma ExecWords(pat: Pattern, line: String, from: nat)
    requires IsWordPattern(pat)
    ensures forall i :: 0 <= i < |ExecAll(pat, line, from)| ==>
      |ExecAll(pat, line, from)[i].groups| == 1 && ExecAll(pat, line, from)[i].groups[0] != []
  {
    var ms := ExecAll(pat, line, from);
    forall i | 0 <= i < |ms| ensures |ms[i].groups| == 1 && ms[i].groups[0] != [] {
      WordGroups(pat, line, ms[i].index);
    }
  }

  /**
   * The word the scan from `lastIndex == from` picks: the first word visited
   * whose first occurrence on the line covers the column; `""` when no word
   * does.
   */
  lemma ScanRule(pat: Pattern, line: String, useChar: nat, from: nat, strict: bool)
    requires IsWordPattern(pat)
    ensures var w := FirstCovering(line, ExecAll(pat, line, from), useChar, strict);
      var ms := ExecAll(pat, line, from);
      (w == "" ==> forall i :: 0 <= i < |ms| ==> !Covers(line, ms[i].groups[0], useChar, strict)) &&
      (w != "" ==>
        exists i :: 0 <= i < |ms| && ms[i].groups == [w] && Covers(line, w, useChar, strict) &&
          forall k :: 0 <= k < i ==> !Covers(line, ms[k].groups[0], useChar, strict))
  {
    ExecWords(pat, line, from);
    FirstWordSpec(line, ExecAll(pat, line, from), useChar, strict);
  }
}
