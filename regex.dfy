/**
 * The regular expressions of the extractors, each modelled by the match the
 * JavaScript engine returns at a given offset, and the `exec` loop of a
 * global (`g`) expression that walks the text from `lastIndex`.
 *
 * All expressions carry the `i` and `m` flags: `[a-z]` also takes capitals,
 * keywords compare case-insensitively, and `^` holds at the start of the text
 * and after every line terminator. Where an expression has greedy parts, the
 * comments say why backtracking cannot give a different match.
 */
module Regex {
  import opened Text

  /** The result of one `exec`: where the match starts and the match array (index 0 is the whole match). */
  datatype Match = Match(index: nat, groups: seq<String>)
  {
    predicate WellFormed()
    {
      |groups| >= 1
    }

    /** The `lastIndex` after this match. */
    function End(): nat
      requires WellFormed()
    {
      index + |groups[0]|
    }
  }

  /** The character classes of the expressions, written out. */
  datatype CharClass =
    | RoutineChars   // [a-z_$0-9:]
    | VarChars       // [a-z_$0-9], also written [a-z0-9_$] and [a-z_0-9$]
    | DottedChars    // [a-z_0-9.$]
    | ObjChars       // [a-z_0-9&]
    | SelectChars    // [\.a-z0-9:_$\-\>]
    | VarSpaceChars  // [a-z_$0-9\s]
    | LineChars      // .
    | Spaces         // \s
    | Blanks         // a literal space
  {
    predicate Has(c: char)
    {
      match this
      case RoutineChars => IsLetter(c) || IsDigit(c) || c == '_' || c == '$' || c == ':'
      case VarChars => IsLetter(c) || IsDigit(c) || c == '_' || c == '$'
      case DottedChars => IsLetter(c) || IsDigit(c) || c == '_' || c == '$' || c == '.'
      case ObjChars => IsLetter(c) || IsDigit(c) || c == '_' || c == '&'
      case SelectChars => IsLetter(c) || IsDigit(c) || c in ".:_$->"
      case VarSpaceChars => IsLetter(c) || IsDigit(c) || c == '_' || c == '$' || IsSpace(c)
      case LineChars => !IsLineTerminator(c)
      case Spaces => IsSpace(c)
      case Blanks => c == ' '
    }
  }

  /** The end of the longest run of `cls` characters starting at `p`: what a greedy `cls*` consumes. */
  function RunEnd(cls: CharClass, text: String, p: nat): (r: nat)
    requires p <= |text|
    ensures p <= r <= |text|
    ensures forall i :: p <= i < r ==> cls.Has(text[i])
    ensures r == |text| || !cls.Has(text[r])
    decreases |text| - p
  {
    if p < |text| && cls.Has(text[p]) then RunEnd(cls, text, p + 1) else p
  }

  /** The start of the longest run of `\s` characters ending at `p`. */
  function SpaceRunStart(text: String, p: nat): (r: nat)
    requires p <= |text|
    ensures r <= p
    ensures forall i :: r <= i < p ==> IsSpace(text[i])
    ensures r == 0 || !IsSpace(text[r - 1])
    decreases p
  {
    if p > 0 && IsSpace(text[p - 1]) then SpaceRunStart(text, p - 1) else p
  }

  /** `^` holds at `p` under the `m` flag. */
  predicate IsLineStart(text: String, p: nat)
    requires p <= |text|
  {
    p == 0 || IsLineTerminator(text[p - 1])
  }

  /** `^\s*` can match a stretch of the text ending at `p`. */
  predicate LineStartBefore(text: String, p: nat)
    requires p <= |text|
    decreases p
  {
    IsLineStart(text, p) || (IsSpace(text[p - 1]) && LineStartBefore(text, p - 1))
  }

  /** The lower-case literal `kw` occurs at `k`, compared case-insensitively. */
  predicate OccursIC(text: String, kw: String, k: nat)
  {
    k + |kw| <= |text| && LowerStr(text[k..k + |kw|]) == kw
  }

  /** The lower-case literal `kw` ends at `p`, compared case-insensitively. */
  predicate EndsIC(text: String, kw: String, p: nat)
  {
    p >= |kw| && OccursIC(text, kw, p - |kw|)
  }

  /**
   * `^\s*KW[\s]+` (or `^\s*KW\s` when `oneSpace`) matches a stretch ending at `p`.
   * Because the keyword ends in a letter, the `[\s]+` is the whole run of
   * white space before `p`.
   */
  predicate KeywordBefore(text: String, kw: String, oneSpace: bool, p: nat)
    requires p <= |text|
  {
    var j := if oneSpace then (if p > 0 && IsSpace(text[p - 1]) then p - 1 else p)
             else SpaceRunStart(text, p);
    j < p && j >= |kw| && OccursIC(text, kw, j - |kw|) && LineStartBefore(text, j - |kw|)
  }

  /** `.*\$` reaches back from `n` to a `$` on the same line: the line up to `n` holds a `$`. */
  predicate DollarOnLine(text: String, n: nat, comma: bool)
    requires n <= |text|
    decreases n
  {
    n > 0 &&
    ((text[n - 1] == '$' && (!comma || CommaBefore(text, n - 1))) ||
     (!IsLineTerminator(text[n - 1]) && DollarOnLine(text, n - 1, comma)))
  }

  /** `,\s*` matches a stretch ending at `d`. */
  predicate CommaBefore(text: String, d: nat)
    requires d <= |text|
  {
    var j := SpaceRunStart(text, d);
    j > 0 && text[j - 1] == ','
  }

  /**
   * The line-continuation look-behind `,\s*\$.*\n^\s*` (or `\$.*\n^\s*` when
   * `comma` is false) matches a stretch ending at `q`: going back over white
   * space from `q` one meets a `\n` whose line holds the `$`.
   */
  predicate ContinuedBefore(text: String, q: nat, comma: bool)
    requires q <= |text|
    decreases q
  {
    q > 0 && IsSpace(text[q - 1]) &&
    ((text[q - 1] == '\n' && DollarOnLine(text, q - 1, comma)) || ContinuedBefore(text, q - 1, comma))
  }

  /** The look-behind `(?<=^\s*|then |else | else\s*:|:\s*)` of the newer assignment expressions. */
  predicate AssignContext(text: String, p: nat)
    requires p <= |text|
  {
    || LineStartBefore(text, p)
    || EndsIC(text, "then ", p)
    || EndsIC(text, "else ", p)
    || (p > 0 && text[p - 1] == ':' && EndsIC(text, " else", SpaceRunStart(text, p - 1)))
    || (var j := SpaceRunStart(text, p); j > 0 && text[j - 1] == ':')
  }

  /** The look-behind `(?<=^\s*|then |else )` of the older assignment expression. */
  predicate OldAssignContext(text: String, p: nat)
    requires p <= |text|
  {
    LineStartBefore(text, p) || EndsIC(text, "then ", p) || EndsIC(text, "else ", p)
  }

  /** `\b` at `e`: exactly one of the characters around `e` is a word character. */
  predicate WordBoundary(text: String, e: nat)
    requires e <= |text|
  {
    var before := e > 0 && IsWordChar(text[e - 1]);
    var after := e < |text| && IsWordChar(text[e]);
    before != after
  }

  /** `\s*=` matches at `e`. */
  predicate EqualsAhead(text: String, e: nat)
    requires e <= |text|
  {
    var s := RunEnd(Spaces, text, e);
    s < |text| && text[s] == '='
  }

  /**
   * The greedy `[a-z_$0-9\s]*` followed by `(?=\b\s*\=)` backtracks from the
   * end of the run to the last position that satisfies the look-ahead.
   */
  function LastAssignEnd(text: String, p: nat, e: nat): (r: Option<nat>)
    requires p < e <= |text|
    ensures r.Some? ==> p < r.value <= e && WordBoundary(text, r.value) && EqualsAhead(text, r.value)
    ensures r.Some? ==> forall k :: r.value < k <= e ==> !(WordBoundary(text, k) && EqualsAhead(text, k))
    ensures r.None? ==> forall k :: p < k <= e ==> !(WordBoundary(text, k) && EqualsAhead(text, k))
    decreases e
  {
    if WordBoundary(text, e) && EqualsAhead(text, e) then Some(e)
    else if e == p + 1 then None
    else LastAssignEnd(text, p, e - 1)
  }

  /** The expressions of the model. */
  datatype Pattern =
    | Decl(keyword: String, oneSpace: bool)  // (?<=^\s*KW[\s]+)[a-z_][a-z_$0-9:]*, or with \s for [\s]+
    | Assign       // (?<!,\s*\$.*\n^\s*)(?<=^\s*|then |else | else\s*:|:\s*)([a-z_][a-z_$0-9]*)(?=\s*=)
    | AssignNext   // the same look-behinds, then ([a-z_][a-z_$0-9]*)(\s*=\s*)(rhs)
    | OldAssign    // (?<!\$.*\n^\s*)(?!continue|begin|endif)(?<=^\s*|then |else )[a-z_][a-z_$0-9\s]*(?=\b\s*\=)
    | ObjNew       // (?<=obj_new\(\s*['"])([a-z_][a-z_0-9&]*)
    | Todo         // ^( *; *)(TODO(?=:).*)$
    | Word         // [\.a-z0-9:_$\-\>][\.a-z0-9:_$\-\>]*
    | Ident        // [a-z_][a-z0-9_$]*
    | Drive        // [a-z]:\\

  /**
   * The right-hand side `[a-z_][a-z_0-9$]*->[a-z_][a-z_0-9.$]*|[a-z_0-9][a-z_0-9.$]*`
   * at `f`: the end of the first alternative that matches.
   */
  function RhsEnd(text: String, f: nat): (r: Option<nat>)
    requires f <= |text|
    ensures r.Some? ==> f < r.value <= |text|
  {
    if f < |text| && IsIdentStart(text[f]) &&
       (var a := RunEnd(VarChars, text, f);
        a + 2 < |text| && text[a] == '-' && text[a + 1] == '>' && IsIdentStart(text[a + 2]))
    then Some(RunEnd(DottedChars, text, RunEnd(VarChars, text, f) + 2))
    else if f < |text| && IsWordChar(text[f]) then Some(RunEnd(DottedChars, text, f))
    else None
  }

  /** `g` is a match array for a non-empty match at `p`. */
  predicate Matched(text: String, p: nat, g: seq<String>)
  {
    |g| >= 1 && 0 < |g[0]| && p + |g[0]| <= |text| && g[0] == text[p..p + |g[0]|]
  }

  function DeclAt(text: String, kw: String, oneSpace: bool, p: nat): (r: Option<seq<String>>)
    requires p <= |text|
    ensures r.Some? ==> Matched(text, p, r.value)
  {
    // the run cannot be shortened: nothing after the name is required
    if p < |text| && IsIdentStart(text[p]) && KeywordBefore(text, kw, oneSpace, p)
    then Some([text[p..RunEnd(RoutineChars, text, p)]])
    else None
  }

  /** The name `[a-z_][a-z_$0-9]*` at `p` stands where an assignment may start and is followed by `\s*=`. */
  predicate AssignStart(text: String, p: nat)
    requires p <= |text|
  {
    // a shorter name would be followed by a name character, which is neither space nor `=`
    p < |text| && IsIdentStart(text[p]) && !ContinuedBefore(text, p, true) && AssignContext(text, p)
    && EqualsAhead(text, RunEnd(VarChars, text, p))
  }

  function AssignAt(text: String, p: nat): (r: Option<seq<String>>)
    requires p <= |text|
    ensures r.Some? ==> Matched(text, p, r.value)
  {
    if AssignStart(text, p) then
      var name := text[p..RunEnd(VarChars, text, p)];
      Some([name, name])
    else None
  }

  function AssignNextAt(text: String, p: nat): (r: Option<seq<String>>)
    requires p <= |text|
    ensures r.Some? ==> Matched(text, p, r.value) && |r.value| == 4
  {
    if AssignStart(text, p) then
      var e := RunEnd(VarChars, text, p);
      var s := RunEnd(Spaces, text, e);
      var f := RunEnd(Spaces, text, s + 1);
      var rhs := RhsEnd(text, f);
      if rhs.Some? then Some(AssignArray(text, p, e, f, rhs.value)) else None
    else None
  }

  /**
   * A match of the assignment expression: group 1 is the name, up to `e`;
   * group 2 the white space around the `=` at `s`.
   */
  lemma AssignNextGroups(text: String, p: nat, e: nat, s: nat)
    requires p <= |text| && AssignNextAt(text, p).Some?
    requires e == RunEnd(VarChars, text, p) && s == RunEnd(Spaces, text, e)
    ensures AssignStart(text, p) && e <= s < |text| && text[s] == '='
    ensures AssignNextAt(text, p).value[1] == text[p..e]
    ensures AssignNextAt(text, p).value[2] == text[e..RunEnd(Spaces, text, s + 1)]
  {
    assert AssignStart(text, p);
  }

  /** The match array of an assignment: the whole match, the name, the `=` part and the right-hand side. */
  function AssignArray(text: String, p: nat, e: nat, f: nat, g: nat): (r: seq<String>)
    requires p <= e <= f <= g <= |text|
    ensures |r| == 4 && r[0] == text[p..g] && r[1] == text[p..e] && r[2] == text[e..f] && r[3] == text[f..g]
  {
    [text[p..g], text[p..e], text[e..f], text[f..g]]
  }

  function OldAssignAt(text: String, p: nat): (r: Option<seq<String>>)
    requires p <= |text|
    ensures r.Some? ==> Matched(text, p, r.value)
  {
    if p < |text| && IsIdentStart(text[p]) && !ContinuedBefore(text, p, false)
       && !(OccursIC(text, "continue", p) || OccursIC(text, "begin", p) || OccursIC(text, "endif", p))
       && OldAssignContext(text, p)
    then
      match LastAssignEnd(text, p, RunEnd(VarSpaceChars, text, p))
      case None => None
      case Some(e) => Some([text[p..e]])
    else None
  }

  function ObjNewAt(text: String, p: nat): (r: Option<seq<String>>)
    requires p <= |text|
    ensures r.Some? ==> Matched(text, p, r.value)
  {
    if p < |text| && IsIdentStart(text[p]) && p > 0 && (text[p - 1] == '\'' || text[p - 1] == '"')
       && EndsIC(text, "obj_new(", SpaceRunStart(text, p - 1))
    then
      var name := text[p..RunEnd(ObjChars, text, p)];
      Some([name, name])
    else None
  }

  function TodoAt(text: String, p: nat): (r: Option<seq<String>>)
    requires p <= |text|
    ensures r.Some? ==> Matched(text, p, r.value) && |r.value| == 3
  {
    // ` *` cannot give back a space, since `;` and `T` must follow
    if IsLineStart(text, p) then
      var a := RunEnd(Blanks, text, p);
      if a < |text| && text[a] == ';' then
        var b := RunEnd(Blanks, text, a + 1);
        if OccursIC(text, "todo", b) && b + 4 < |text| && text[b + 4] == ':' then
          var e := RunEnd(LineChars, text, b);
          Some([text[p..e], text[p..b], text[b..e]])
        else None
      else None
    else None
  }

  function RunAt(cls: CharClass, first: char -> bool, text: String, p: nat): (r: Option<seq<String>>)
    requires p <= |text|
    requires forall c :: first(c) ==> cls.Has(c)
    ensures r.Some? ==> Matched(text, p, r.value)
  {
    if p < |text| && first(text[p]) then Some([text[p..RunEnd(cls, text, p)]]) else None
  }

  function DriveAt(text: String, p: nat): (r: Option<seq<String>>)
    requires p <= |text|
    ensures r.Some? ==> Matched(text, p, r.value)
  {
    if p + 3 <= |text| && IsLetter(text[p]) && text[p + 1] == ':' && text[p + 2] == '\\'
    then Some([text[p..p + 3]])
    else None
  }

  /** The match array `exec` reports for a match starting exactly at `p`, if there is one. */
  function MatchAt(pat: Pattern, text: String, p: nat): (r: Option<seq<String>>)
    requires p <= |text|
    ensures r.Some? ==> Matched(text, p, r.value)
  {
    match pat
    case Decl(kw, oneSpace) => DeclAt(text, kw, oneSpace, p)
    case Assign => AssignAt(text, p)
    case AssignNext => AssignNextAt(text, p)
    case OldAssign => OldAssignAt(text, p)
    case ObjNew => ObjNewAt(text, p)
    case Todo => TodoAt(text, p)
    case Word => RunAt(SelectChars, c => SelectChars.Has(c), text, p)
    case Ident => RunAt(VarChars, IsIdentStart, text, p)
    case Drive => DriveAt(text, p)
  }

  /** `exec` with `lastIndex == from`: the first match starting at or after `from`. */
  function NextMatch(pat: Pattern, text: String, from: nat): (r: Option<Match>)
    ensures r.Some? ==> from <= r.value.index <= |text| && MatchAt(pat, text, r.value.index) == Some(r.value.groups)
    ensures r.Some? ==> forall q :: from <= q < r.value.index ==> MatchAt(pat, text, q).None?
    ensures r.None? ==> forall q :: from <= q <= |text| ==> MatchAt(pat, text, q).None?
    decreases |text| + 1 - from
  {
    if from > |text| then None
    else
      var here := MatchAt(pat, text, from);
      if here.Some? then Some(Match(from, here.value))
      else
        var r := NextMatch(pat, text, from + 1);
        assert forall q :: from < q <= |text| && (r.None? || q < r.value.index) ==> MatchAt(pat, text, q).None?;
        r
  }

  /**
   * Every match the loop `while ((m = re.exec(text)) !== null)` visits when it
   * starts at `from`. Matches are never empty, so the loop's guard against
   * empty matches never moves `lastIndex`.
   */
  function ExecAll(pat: Pattern, text: String, from: nat): (r: seq<Match>)
    ensures forall i :: 0 <= i < |r| ==> r[i].WellFormed() && from <= r[i].index <= |text| && r[i].End() <= |text|
    ensures forall i :: 0 <= i < |r| ==> MatchAt(pat, text, r[i].index) == Some(r[i].groups)
    ensures forall i :: 0 < i < |r| ==> r[i - 1].End() <= r[i].index
    decreases |text| + 1 - from
  {
    match NextMatch(pat, text, from)
    case None => []
    case Some(m) =>
      assert Matched(text, m.index, m.groups);
      var rest := ExecAll(pat, text, m.End());
      ExecCons(pat, text, from, m, rest);
      [m] + rest
  }

  /** A match found from `from`, followed by the visits from its end, is a visit from `from`. */
  lemma ExecCons(pat: Pattern, text: String, from: nat, m: Match, rest: seq<Match>)
    requires NextMatch(pat, text, from) == Some(m) && m.WellFormed() && m.End() <= |text|
    requires forall i :: 0 <= i < |rest| ==> rest[i].WellFormed() && m.End() <= rest[i].index <= |text| && rest[i].End() <= |text|
    requires forall i :: 0 <= i < |rest| ==> MatchAt(pat, text, rest[i].index) == Some(rest[i].groups)
    requires forall i :: 0 < i < |rest| ==> rest[i - 1].End() <= rest[i].index
    ensures var r := [m] + rest;
      (forall i :: 0 <= i < |r| ==> r[i].WellFormed() && from <= r[i].index <= |text| && r[i].End() <= |text|) &&
      (forall i :: 0 <= i < |r| ==> MatchAt(pat, text, r[i].index) == Some(r[i].groups)) &&
      (forall i :: 0 < i < |r| ==> r[i - 1].End() <= r[i].index)
  {
    var r := [m] + rest;
    forall i | 0 < i < |r| ensures r[i] == rest[i - 1] {
    }
  }

  /** The text a match covers. */
  lemma MatchText(pat: Pattern, text: String, m: Match)
    requires m.index <= |text| && MatchAt(pat, text, m.index) == Some(m.groups)
    ensures m.WellFormed() && m.index < m.End() <= |text| && m.groups[0] == text[m.index..m.End()]
  {
    assert Matched(text, m.index, m.groups);
  }

  /** One turn of the `exec` loop: the first match, then the matches after it. */
  lemma ExecStep(pat: Pattern, text: String, from: nat)
    ensures NextMatch(pat, text, from).None? ==> ExecAll(pat, text, from) == []
    ensures NextMatch(pat, text, from).Some? ==>
      var m := NextMatch(pat, text, from).value;
      m.WellFormed() && m.index < m.End() <= |text| && m.groups[0] == text[m.index..m.End()] &&
      ExecAll(pat, text, from) == [m] + ExecAll(pat, text, m.End())
  {
    if NextMatch(pat, text, from).Some? {
      var m := NextMatch(pat, text, from).value;
      assert Matched(text, m.index, m.groups);
    }
  }

  /**
   * The loop invariant of every `exec` loop: the matches visited so far,
   * `done`, followed by the matches still to come from `lastIndex`, are all
   * the matches from the start. One more turn keeps it.
   */
  lemma ExecAdvance(pat: Pattern, text: String, done: seq<Match>, lastIndex: nat)
    requires ExecAll(pat, text, 0) == done + ExecAll(pat, text, lastIndex)
    requires NextMatch(pat, text, lastIndex).Some?
    ensures var m := NextMatch(pat, text, lastIndex).value;
      m.WellFormed() && lastIndex <= m.index < m.End() <= |text| && m.groups[0] == text[m.index..m.End()] &&
      ExecAll(pat, text, 0) == (done + [m]) + ExecAll(pat, text, m.End())
  {
    ExecStep(pat, text, lastIndex);
    var m := NextMatch(pat, text, lastIndex).value;
    assert done + ([m] + ExecAll(pat, text, m.End())) == (done + [m]) + ExecAll(pat, text, m.End());
  }

  /** When `exec` finds nothing more, the loop has visited every match. */
  lemma ExecDone(pat: Pattern, text: String, done: seq<Match>, lastIndex: nat)
    requires ExecAll(pat, text, 0) == done + ExecAll(pat, text, lastIndex)
    requires NextMatch(pat, text, lastIndex).None?
    ensures ExecAll(pat, text, 0) == done
  {
    ExecStep(pat, text, lastIndex);
  }

  /**
   * Every match the expression has at or after `from` is visited by the loop
   * or lies inside a visited match: `exec` skips only what an earlier match
   * has consumed.
   */
  lemma {:induction false} ExecCovers(pat: Pattern, text: String, from: nat, p: nat)
    requires from <= p <= |text| && MatchAt(pat, text, p).Some?
    ensures exists i ::
      0 <= i < |ExecAll(pat, text, from)| && ExecAll(pat, text, from)[i].index <= p < ExecAll(pat, text, from)[i].End()
    decreases |text| + 1 - from
  {
    ExecStep(pat, text, from);
    var m := NextMatch(pat, text, from).value;
    var all := ExecAll(pat, text, from);
    assert all[0] == m;
    if p >= m.End() {
      ExecCovers(pat, text, m.End(), p);
      var rest := ExecAll(pat, text, m.End());
      var j :| 0 <= j < |rest| && rest[j].index <= p < rest[j].End();
      assert all[j + 1] == rest[j];
    }
  }
}
