/**
 * Character classes and string operations of the JavaScript runtime that the
 * language server relies on, written out for `seq<char>`.
 *
 * Case mapping is ASCII-only, which is also what the `i` flag of a
 * non-unicode JavaScript regular expression does for `[a-z]`.
 */
module Text {

  type String = seq<char>

  datatype Option<+T> = None | Some(value: T)

  /** Line terminators: what `^` and `$` stop at under the `m` flag, and what `.` excludes. */
  predicate IsLineTerminator(c: char)
  {
    c == '\n' || c == '\r' || c == '\U{2028}' || c == '\U{2029}'
  }

  /** JavaScript's `\s` class, which is also the set `trim` and `trimRight` remove. */
  predicate IsSpace(c: char)
  {
    || c == ' ' || c == '\t' || c == '\n' || c == '\r'
    || c == '\U{000B}' || c == '\U{000C}' || c == '\U{00A0}' || c == '\U{1680}'
    || ('\U{2000}' <= c <= '\U{200A}')
    || c == '\U{2028}' || c == '\U{2029}' || c == '\U{202F}' || c == '\U{205F}'
    || c == '\U{3000}' || c == '\U{FEFF}'
  }

  lemma LineTerminatorIsSpace(c: char)
    ensures IsLineTerminator(c) ==> IsSpace(c)
  {
  }

  predicate IsLetter(c: char)
  {
    ('a' <= c <= 'z') || ('A' <= c <= 'Z')
  }

  predicate IsDigit(c: char)
  {
    '0' <= c <= '9'
  }

  /** `[a-z_]` under the `i` flag: the first character of a routine or variable name. */
  predicate IsIdentStart(c: char)
  {
    IsLetter(c) || c == '_'
  }

  /** The characters `\b` treats as word characters. */
  predicate IsWordChar(c: char)
  {
    IsLetter(c) || IsDigit(c) || c == '_'
  }

  function Lower(c: char): (r: char)
    ensures IsLetter(c) ==> 'a' <= r <= 'z'
    ensures !('A' <= c <= 'Z') ==> r == c
  {
    if 'A' <= c <= 'Z' then (c as int + 32) as char else c
  }

  function Upper(c: char): (r: char)
    ensures IsLetter(c) ==> 'A' <= r <= 'Z'
    ensures !('a' <= c <= 'z') ==> r == c
  {
    if 'a' <= c <= 'z' then (c as int - 32) as char else c
  }

  /** `toLowerCase()`, ASCII only. */
  function LowerStr(s: String): (r: String)
    ensures |r| == |s|
    ensures forall i :: 0 <= i < |s| ==> r[i] == Lower(s[i])
  {
    seq(|s|, i requires 0 <= i < |s| => Lower(s[i]))
  }

  /** `toUpperCase()`, ASCII only. */
  function UpperStr(s: String): (r: String)
    ensures |r| == |s|
    ensures forall i :: 0 <= i < |s| ==> r[i] == Upper(s[i])
  {
    seq(|s|, i requires 0 <= i < |s| => Upper(s[i]))
  }

  /** Equality under the `i` flag of a regular expression. */
  predicate EqualsIgnoreCase(a: String, b: String)
  {
    LowerStr(a) == LowerStr(b)
  }

  predicate AllSpace(s: String)
  {
    forall i :: 0 <= i < |s| ==> IsSpace(s[i])
  }

  predicate NoLineTerminator(s: String)
  {
    forall i :: 0 <= i < |s| ==> !IsLineTerminator(s[i])
  }

  predicate StartsWith(s: String, prefix: String)
  {
    |prefix| <= |s| && s[..|prefix|] == prefix
  }

  predicate EndsWith(s: String, suffix: String)
  {
    |suffix| <= |s| && s[|s| - |suffix|..] == suffix
  }

  /** `sub` occurs in `s` starting at offset `j`. */
  predicate OccursAt(s: String, sub: String, j: nat)
  {
    j + |sub| <= |s| && s[j..j + |sub|] == sub
  }

  /** `s.indexOf(sub, from)`: the first occurrence at or after `from`, or -1. */
  function IndexOf(s: String, sub: String, from: nat): (r: int)
    ensures r == -1 || (from <= r && OccursAt(s, sub, r))
    ensures r != -1 ==> forall j :: from <= j < r ==> !OccursAt(s, sub, j)
    ensures r == -1 ==> forall j :: from <= j ==> !OccursAt(s, sub, j)
    decreases |s| - from
  {
    if from + |sub| > |s| then -1
    else if s[from..from + |sub|] == sub then from
    else IndexOf(s, sub, from + 1)
  }

  /** `s.includes(sub)`. */
  predicate Contains(s: String, sub: String)
  {
    IndexOf(s, sub, 0) != -1
  }

  lemma ContainsIff(s: String, sub: String)
    ensures Contains(s, sub) <==> exists j: nat :: OccursAt(s, sub, j)
  {
  }

  /** Lower-casing neither creates nor removes a character that is not a letter. */
  lemma LowerContainsChar(s: String, c: char)
    requires !IsLetter(c)
    ensures Contains(LowerStr(s), [c]) <==> Contains(s, [c])
  {
    ContainsIff(LowerStr(s), [c]);
    ContainsIff(s, [c]);
    forall j: nat ensures OccursAt(LowerStr(s), [c], j) <==> OccursAt(s, [c], j) {
      if j < |s| {
        assert LowerStr(s)[j..j + 1] == [Lower(s[j])];
        assert s[j..j + 1] == [s[j]];
      }
    }
  }

  /** No element of `s` appears twice. */
  predicate NoDuplicates<T(==)>(s: seq<T>)
  {
    forall i, j :: 0 <= i < j < |s| ==> s[i] != s[j]
  }

  /** `s.split(sep)` for a non-empty separator. */
  function Split(s: String, sep: String): (r: seq<String>)
    requires |sep| > 0
    ensures |r| >= 1
    decreases |s|
  {
    var i := IndexOf(s, sep, 0);
    if i == -1 then [s] else [s[..i]] + Split(s[i + |sep|..], sep)
  }

  /** `parts.join(sep)`. */
  function Join(parts: seq<String>, sep: String): String
  {
    if |parts| == 0 then []
    else if |parts| == 1 then parts[0]
    else parts[0] + sep + Join(parts[1..], sep)
  }

  /** `s.replace(pat, rep)` with a string pattern: only the first occurrence is replaced. */
  function Replace(s: String, pat: String, rep: String): (r: String)
    ensures IndexOf(s, pat, 0) == -1 ==> r == s
    ensures IndexOf(s, pat, 0) != -1 ==>
              var i := IndexOf(s, pat, 0);
              r == s[..i] + rep + s[i + |pat|..]
  {
    var i := IndexOf(s, pat, 0);
    if i == -1 then s else s[..i] + rep + s[i + |pat|..]
  }

  /** `s.substr(start)` for a non-negative start. */
  function SubstrFrom(s: String, start: nat): (r: String)
    ensures start <= |s| ==> r == s[start..]
    ensures start > |s| ==> r == []
  {
    if start <= |s| then s[start..] else []
  }

  /** `s.substr(start, len)` for a non-negative start and length. */
  function Substr(s: String, start: nat, len: nat): (r: String)
    ensures |r| <= len
    ensures start + len <= |s| ==> r == s[start..start + len]
  {
    if start >= |s| then []
    else if start + len <= |s| then s[start..start + len]
    else s[start..]
  }

  /** `s.trimRight()`. */
  function TrimRight(s: String): String
    decreases |s|
  {
    if |s| > 0 && IsSpace(s[|s| - 1]) then TrimRight(s[..|s| - 1]) else s
  }

  /** `s.trimLeft()`. */
  function TrimLeft(s: String): String
    decreases |s|
  {
    if |s| > 0 && IsSpace(s[0]) then TrimLeft(s[1..]) else s
  }

  /** `s.trim()`. */
  function Trim(s: String): String
  {
    TrimLeft(TrimRight(s))
  }

  /** `trimRight` removes exactly the white space at the end: a prefix that ends in a non-space, or nothing. */
  lemma {:induction false} TrimRightSpec(s: String)
    ensures var r := TrimRight(s);
      |r| <= |s| && r == s[..|r|] && (r == [] || !IsSpace(r[|r| - 1])) && AllSpace(s[|r|..])
    decreases |s|
  {
    if |s| > 0 && IsSpace(s[|s| - 1]) {
      var t := s[..|s| - 1];
      TrimRightSpec(t);
      var r := TrimRight(t);
      assert s[..|r|] == t[..|r|];
      assert s[|r|..] == t[|r|..] + [s[|s| - 1]];
    }
  }

  /** `trimLeft` removes exactly the white space at the start: a suffix that starts with a non-space, or nothing. */
  lemma {:induction false} TrimLeftSpec(s: String)
    ensures var r := TrimLeft(s);
      |r| <= |s| && r == s[|s| - |r|..] && (r == [] || !IsSpace(r[0])) && AllSpace(s[..|s| - |r|])
    decreases |s|
  {
    if |s| > 0 && IsSpace(s[0]) {
      var t := s[1..];
      TrimLeftSpec(t);
      var r := TrimLeft(t);
      assert s[|s| - |r|..] == t[|t| - |r|..];
      assert s[..|s| - |r|] == [s[0]] + t[..|t| - |r|];
    }
  }

  /** How many times `c` occurs in `s`. */
  function Count(s: String, c: char): nat
  {
    if |s| == 0 then 0 else Count(s[..|s| - 1], c) + (if s[|s| - 1] == c then 1 else 0)
  }

  /**
   * The line and column of offset `p`, computed as the extractors do:
   * split the text before `p` on `\n`; the line is the number of pieces
   * minus one and the column the length of the last piece.
   */
  function LineColumn(text: String, p: nat): (nat, nat)
    requires p <= |text|
  {
    var split := Split(text[..p], "\n");
    (|split| - 1, |split[|split| - 1]|)
  }

  /** The first occurrence of a one-character separator is where it first appears. */
  lemma IndexOfChar(s: String, c: char, head: String)
    requires c !in head && StartsWith(s, head + [c])
    ensures IndexOf(s, [c], 0) == |head|
  {
    assert OccursAt(s, [c], |head|);
    forall j | 0 <= j < |head| ensures !OccursAt(s, [c], j) {
      assert s[j..j + 1] == [head[j]];
    }
  }

  /** No piece produced by splitting on `c` contains `c`. */
  lemma {:induction false} SplitPiecesFree(s: String, c: char)
    ensures forall i :: 0 <= i < |Split(s, [c])| ==> c !in Split(s, [c])[i]
    decreases |s|
  {
    var i := IndexOf(s, [c], 0);
    if i == -1 {
      forall k | 0 <= k < |s| ensures s[k] != c {
        assert !OccursAt(s, [c], k);
      }
    } else {
      SplitPiecesFree(s[i + 1..], c);
      forall k | 0 <= k < i ensures s[k] != c {
        assert !OccursAt(s, [c], k);
      }
    }
  }

  /** Splitting on `c` gives one more piece than there are `c`s. */
  lemma {:induction false} SplitCount(s: String, c: char)
    ensures |Split(s, [c])| == Count(s, c) + 1
    decreases |s|
  {
    var i := IndexOf(s, [c], 0);
    if i == -1 {
      forall k | 0 <= k < |s| ensures s[k] != c {
        assert !OccursAt(s, [c], k);
      }
      CountNone(s, c);
    } else {
      forall k | 0 <= k < i ensures s[k] != c {
        assert !OccursAt(s, [c], k);
      }
      SplitCount(s[i + 1..], c);
      CountAppend(s[..i], [c] + s[i + 1..], c);
      CountAppend([c], s[i + 1..], c);
      assert s == s[..i] + ([c] + s[i + 1..]);
      CountNone(s[..i], c);
      assert Count([c], c) == Count([], c) + 1;
    }
  }

  lemma {:induction false} CountNone(s: String, c: char)
    requires c !in s
    ensures Count(s, c) == 0
    decreases |s|
  {
    if |s| > 0 {
      assert s[|s| - 1] in s;
      CountNone(s[..|s| - 1], c);
    }
  }

  lemma {:induction false} CountAppend(a: String, b: String, c: char)
    ensures Count(a + b, c) == Count(a, c) + Count(b, c)
    decreases |b|
  {
    if |b| > 0 {
      assert (a + b)[..|a + b| - 1] == a + b[..|b| - 1];
      CountAppend(a, b[..|b| - 1], c);
    } else {
      assert a + b == a;
    }
  }

  /** Joining pieces that do not contain `c` with `c` and splitting again gives the pieces back. */
  lemma {:induction false} SplitJoin(parts: seq<String>, c: char)
    requires |parts| >= 1
    requires forall i :: 0 <= i < |parts| ==> c !in parts[i]
    ensures Split(Join(parts, [c]), [c]) == parts
    decreases |parts|
  {
    var s := Join(parts, [c]);
    if |parts| == 1 {
      forall j | 0 <= j < |s| ensures !OccursAt(s, [c], j) {
        assert s[j..j + 1] == [parts[0][j]];
      }
    } else {
      var rest := Join(parts[1..], [c]);
      assert s == parts[0] + [c] + rest;
      IndexOfChar(s, c, parts[0]);
      assert s[|parts[0]| + 1..] == rest;
      assert s[..|parts[0]|] == parts[0];
      SplitJoin(parts[1..], c);
    }
  }

  /** The last piece of a split is the text after the last separator. */
  lemma {:induction false} SplitLast(s: String, c: char)
    ensures var last := Split(s, [c])[|Split(s, [c])| - 1];
            EndsWith(s, last) && c !in last &&
            (|last| == |s| || s[|s| - |last| - 1] == c)
    decreases |s|
  {
    var i := IndexOf(s, [c], 0);
    if i == -1 {
      SplitLastNone(s, c);
    } else {
      var t := s[i + 1..];
      SplitLast(t, c);
      var rest := Split(t, [c]);
      var last := rest[|rest| - 1];
      assert c !in last;
      SplitLastSome(s, c, i);
      LastPieceStep(s, c, i, t, last);
    }
  }

  /** Without a separator, the only piece is the whole text. */
  lemma SplitLastNone(s: String, c: char)
    requires IndexOf(s, [c], 0) == -1
    ensures Split(s, [c]) == [s] && c !in s
  {
    forall k | 0 <= k < |s| ensures s[k] != c {
      assert !OccursAt(s, [c], k);
    }
  }

  /** With a first separator at `i`, the last piece is the last piece of the text after it. */
  lemma SplitLastSome(s: String, c: char, i: int)
    requires i == IndexOf(s, [c], 0) && i != -1
    ensures s[i] == c
    ensures Split(s, [c])[|Split(s, [c])| - 1] == Split(s[i + 1..], [c])[|Split(s[i + 1..], [c])| - 1]
  {
    assert s[i..i + 1] == [c];
    var rest := Split(s[i + 1..], [c]);
    assert Split(s, [c]) == [s[..i]] + rest;
    LastOfCons(s[..i], rest);
  }

  /** The last element of a non-empty list is still last after an element is put in front. */
  lemma LastOfCons<T>(x: T, r: seq<T>)
    requires |r| > 0
    ensures ([x] + r)[|[x] + r| - 1] == r[|r| - 1]
  {
  }

  /** A last piece of the text after a separator at `i` is a last piece of the whole text. */
  lemma LastPieceStep(s: String, c: char, i: nat, t: String, last: String)
    requires i < |s| && s[i] == c && t == s[i + 1..]
    requires EndsWith(t, last) && (|last| == |t| || t[|t| - |last| - 1] == c)
    ensures EndsWith(s, last)
    ensures |last| == |s| || s[|s| - |last| - 1] == c
  {
    var k := |s| - |last|;
    assert |t| - |last| == k - i - 1;
    assert s[k..] == t[k - i - 1..];
    if |last| == |t| {
      assert k - 1 == i;
    } else {
      assert s[k - 1] == t[k - i - 2];
    }
  }

  /** The line reported for offset `p` counts the newlines before it; the column is the distance back to the last of them. */
  lemma LineColumnSpec(text: String, p: nat)
    requires p <= |text|
    ensures LineColumn(text, p).0 == Count(text[..p], '\n')
    ensures var col := LineColumn(text, p).1;
            col <= p && '\n' !in text[p - col..p] &&
            (col == p || text[p - col - 1] == '\n')
  {
    SplitCount(text[..p], '\n');
    SplitLast(text[..p], '\n');
    assert text[..p][p - LineColumn(text, p).1..] == text[p - LineColumn(text, p).1..p];
  }

  /** `indexOf` of a one-character string, stated per character. */
  lemma IndexOfSingle(s: String, c: char, from: nat)
    ensures var r := IndexOf(s, [c], from);
            (r == -1 ==> forall j :: from <= j < |s| ==> s[j] != c) &&
            (r != -1 ==> from <= r < |s| && s[r] == c && forall j :: from <= j < r ==> s[j] != c)
  {
    var r := IndexOf(s, [c], from);
    forall j | from <= j < |s| && (r == -1 || j < r) ensures s[j] != c {
      assert !OccursAt(s, [c], j);
      assert s[j..j + 1] == [s[j]];
    }
    if r != -1 {
      assert s[r..r + 1] == [c];
    }
  }

  /** Splitting a text without the separator gives the text itself. */
  lemma SplitNone(s: String, c: char)
    requires c !in s
    ensures Split(s, [c]) == [s]
  {
    IndexOfSingle(s, c, 0);
  }

  /** Splitting at the first separator, found at `e`. */
  lemma SplitFirst(s: String, c: char, e: nat)
    requires e < |s| && s[e] == c && c !in s[..e]
    ensures Split(s, [c]) == [s[..e]] + Split(s[e + 1..], [c])
  {
    assert s[..e + 1] == s[..e] + [c];
    IndexOfChar(s, c, s[..e]);
  }

  /** Where the first `\n` of `text` comes at or after `p`, offset `p` is on the first line. */
  lemma LineAtFirst(text: String, p: nat, e: nat)
    requires p <= e <= |text| && '\n' !in text[..e] && (e == |text| || text[e] == '\n')
    ensures LineColumn(text, p) == (0, p)
    ensures Split(text, "\n")[0] == text[..e]
  {
    assert text[..p] == text[..e][..p];
    SplitNone(text[..p], '\n');
    if e == |text| {
      assert text[..e] == text;
      SplitNone(text, '\n');
    } else {
      SplitFirst(text, '\n', e);
    }
  }

  /** The line and column of an offset past the first `\n` of `text`, at `i`, computed in the text after it. */
  lemma LineAfterNewline(text: String, i: nat, p: nat, t: String, q: nat)
    requires i < p <= |text| && text[i] == '\n' && '\n' !in text[..i]
    requires t == text[i + 1..] && q == p - i - 1
    ensures LineColumn(text, p) == (LineColumn(t, q).0 + 1, LineColumn(t, q).1)
  {
    var pre := text[..p];
    assert pre[..i] == text[..i] && pre[i] == '\n';
    assert pre[i + 1..] == t[..q];
    SplitFirst(pre, '\n', i);
    var rest := Split(t[..q], "\n");
    var whole := [text[..i]] + rest;
    assert Split(pre, "\n") == whole;
    LastOfCons(text[..i], rest);
  }

  /** Where the line holding `p` ends: the next `\n` at or after `p`, or the end of the text. */
  function LineEnd(text: String, p: nat): (e: nat)
    requires p <= |text|
    ensures p <= e <= |text| && (e == |text| || text[e] == '\n')
    ensures forall k :: p <= k < e ==> text[k] != '\n'
  {
    IndexOfSingle(text, '\n', p);
    var k := IndexOf(text, "\n", p);
    if k == -1 then |text| else k
  }

  /** Line ends do not depend on what comes before the last `\n`. */
  lemma LineEndShift(text: String, i: nat, p: nat, t: String, q: nat)
    requires i < p <= |text| && t == text[i + 1..] && q == p - i - 1
    ensures LineEnd(text, p) == i + 1 + LineEnd(t, q)
  {
    var e := LineEnd(text, p);
    var e' := LineEnd(t, q);
    assert forall k :: q <= k < |t| ==> text[i + 1 + k] == t[k];
  }

  /**
   * The line `LineColumn` reports for offset `p` is the piece of
   * `text.split('\n')` that holds `p`: it starts `col` characters before `p`
   * and runs to the end of that line.
   */
  lemma {:induction false} LineAt(text: String, p: nat)
    requires p <= |text|
    ensures LineColumn(text, p).0 < |Split(text, "\n")| && LineColumn(text, p).1 <= p
    ensures Split(text, "\n")[LineColumn(text, p).0] == text[p - LineColumn(text, p).1..LineEnd(text, p)]
    decreases |text|
  {
    var i := IndexOf(text, "\n", 0);
    IndexOfSingle(text, '\n', 0);
    if i == -1 || i >= p {
      var e := LineEnd(text, p);
      assert '\n' !in text[..e] by {
        forall k | 0 <= k < e ensures text[k] != '\n' { }
      }
      LineAtFirst(text, p, e);
    } else {
      LineAtLater(text, p, i);
    }
  }

  /** `LineAt` where a `\n` at `i` comes before `p`: the line is found in the rest of the text. */
  lemma {:induction false} LineAtLater(text: String, p: nat, i: nat)
    requires i < p <= |text| && text[i] == '\n' && '\n' !in text[..i]
    ensures LineColumn(text, p).0 < |Split(text, "\n")| && LineColumn(text, p).1 <= p
    ensures Split(text, "\n")[LineColumn(text, p).0] == text[p - LineColumn(text, p).1..LineEnd(text, p)]
    decreases |text|, 0
  {
    var t := text[i + 1..];
    var q := p - i - 1;
    LineAt(t, q);
    ShiftFacts(text, i, p, t, q);
    ShiftPiece(text, i, p, q, Split(t, "\n")[LineColumn(t, q).0], LineColumn(t, q).1, LineEnd(t, q));
  }

  /** A line found in the text after the `\n` at `i` is the same slice of the whole text, shifted. */
  lemma ShiftPiece(text: String, i: nat, p: nat, q: nat, piece: String, col: nat, e: nat)
    requires i < p <= |text| && q == p - i - 1 && col <= q <= e <= |text| - i - 1
    requires piece == text[i + 1..][q - col..e]
    ensures piece == text[p - col..i + 1 + e]
  {
    SliceShift(text, i + 1, q - col, e);
  }

  /** A slice of a suffix is a slice of the whole. */
  lemma SliceShift(s: String, d: nat, lo: nat, hi: nat)
    requires d <= |s| && lo <= hi <= |s| - d
    ensures s[d..][lo..hi] == s[d + lo..d + hi]
  {
  }

  /**
   * The facts `LineAtLater` needs, stated for `text` cut after its first
   * `\n` at `i`: the line is one more than in the rest, the column and the
   * piece are the same, and the line end is shifted.
   */
  lemma ShiftFacts(text: String, i: nat, p: nat, t: String, q: nat)
    requires i < p <= |text| && text[i] == '\n' && '\n' !in text[..i]
    requires t == text[i + 1..] && q == p - i - 1 && LineColumn(t, q).0 < |Split(t, "\n")|
    ensures LineColumn(text, p) == (LineColumn(t, q).0 + 1, LineColumn(t, q).1)
    ensures LineEnd(text, p) == i + 1 + LineEnd(t, q)
    ensures LineColumn(text, p).0 < |Split(text, "\n")|
    ensures Split(text, "\n")[LineColumn(text, p).0] == Split(t, "\n")[LineColumn(t, q).0]
  {
    LineAfterNewline(text, i, p, t, q);
    LineEndShift(text, i, p, t, q);
    SplitFirst(text, '\n', i);
    ConsIndex(text[..i], Split(t, "\n"), LineColumn(t, q).0);
  }

  /** Putting an element in front moves every index up by one. */
  lemma ConsIndex<T>(x: T, r: seq<T>, k: nat)
    requires k < |r|
    ensures |[x] + r| == |r| + 1 && ([x] + r)[k + 1] == r[k]
  {
  }

  /**
   * `a` is `s` before the first occurrence of `sep`, and `b` is what follows
   * that occurrence up to the next one or the end.
   */
  predicate FirstPieces(s: String, sep: String, a: String, b: String)
  {
    OccursAt(s, sep, |a|) && a == s[..|a|] && (forall j :: 0 <= j < |a| ==> !OccursAt(s, sep, j)) &&
    var rest := s[|a| + |sep|..];
    |b| <= |rest| && b == rest[..|b|] && (forall j :: 0 <= j < |b| ==> !OccursAt(rest, sep, j)) &&
    (|b| == |rest| || OccursAt(rest, sep, |b|))
  }

  /** When `s` contains the separator, `split` gives at least two pieces, and the first two are its first pieces. */
  lemma SplitFirstPieces(s: String, sep: String)
    requires |sep| > 0 && Contains(s, sep)
    ensures |Split(s, sep)| >= 2 && FirstPieces(s, sep, Split(s, sep)[0], Split(s, sep)[1])
  {
    var i := IndexOf(s, sep, 0);
    var a := s[..i];
    var rest := s[i + |sep|..];
    var sp := Split(s, sep);
    assert sp == [a] + Split(rest, sep);
    var b := Split(rest, sep)[0];
    assert sp[0] == a && sp[1] == b;
    SplitHead(rest, sep);
    assert |a| == i && OccursAt(s, sep, |a|);
    assert forall j :: 0 <= j < |a| ==> !OccursAt(s, sep, j);
  }

  /** The first piece of a split runs up to the first separator, or is the whole text. */
  lemma SplitHead(t: String, sep: String)
    requires |sep| > 0
    ensures var b := Split(t, sep)[0];
            |b| <= |t| && b == t[..|b|] && (forall j :: 0 <= j < |b| ==> !OccursAt(t, sep, j)) &&
            (|b| == |t| || OccursAt(t, sep, |b|))
  {
    var j := IndexOf(t, sep, 0);
    if j == -1 {
      assert Split(t, sep) == [t];
      assert t[..|t|] == t;
    } else {
      assert Split(t, sep)[0] == t[..j];
    }
  }
}
