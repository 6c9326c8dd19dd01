/**
 * The file helper: strips `;` comments from IDL source lines while leaving
 * `'…'` and `"…"` strings alone, and caches the cleaned text of each file.
 */
module FileHelper {
  import opened Text
  import opened Lsp

  /** The quote a scan from the start of the line is inside of after `k` characters, if any. */
  function QuoteAt(line: String, k: nat): Option<char>
    requires k <= |line|
    decreases k
  {
    if k == 0 then None
    else
      var c := line[k - 1];
      match QuoteAt(line, k - 1)
      case None => if c == '\'' || c == '"' then Some(c) else None
      case Some(q) => if c == q then None else Some(q)
  }

  /** A `;` at `k` that is not inside a string starts a comment. */
  predicate CommentAt(line: String, k: nat)
  {
    k < |line| && line[k] == ';' && QuoteAt(line, k).None?
  }

  /** Where the comment starts: the first `;` outside strings at or after `i`, or the line's length. */
  function CommentStart(line: String, i: nat): (r: nat)
    requires i <= |line|
    ensures i <= r <= |line|
    ensures r == |line| || CommentAt(line, r)
    ensures forall k :: i <= k < r ==> !CommentAt(line, k)
    decreases |line| - i
  {
    if i == |line| then |line|
    else if CommentAt(line, i) then i
    else CommentStart(line, i + 1)
  }

  /** What `_trimLine` returns: the line up to its comment, without trailing white space. */
  function TrimmedLine(line: String): String
  {
    TrimRight(line[..CommentStart(line, 0)])
  }

  /** Outside a string, characters other than quotes keep the scan outside. */
  lemma {:induction false} PlainRun(line: String, i: nat, j: nat)
    requires i <= j <= |line|
    requires QuoteAt(line, i).None?
    requires forall k :: i <= k < j ==> line[k] != '\'' && line[k] != '"'
    ensures QuoteAt(line, j).None?
    decreases j - i
  {
    if i < j {
      PlainRun(line, i, j - 1);
    }
  }

  /** Inside a string, characters other than its closing quote keep the scan inside. */
  lemma {:induction false} QuotedRun(line: String, i: nat, j: nat, q: char)
    requires i <= j <= |line|
    requires QuoteAt(line, i) == Some(q)
    requires forall k :: i <= k < j ==> line[k] != q
    ensures QuoteAt(line, j) == Some(q)
    decreases j - i
  {
    if i < j {
      QuotedRun(line, i, j - 1, q);
    }
  }

  /** A position with no comment before it and none at it is where the comment starts. */
  lemma CommentStartIs(line: String, c: nat)
    requires c <= |line|
    requires c == |line| || CommentAt(line, c)
    requires forall k :: 0 <= k < c ==> !CommentAt(line, k)
    ensures CommentStart(line, 0) == c
  {
  }

  /** Skipping characters that are neither quotes nor `;` leaves the scan outside strings with no comment met. */
  lemma SkipPlain(line: String, pos: nat, min: nat)
    requires pos <= min <= |line|
    requires QuoteAt(line, pos).None? && forall k :: 0 <= k < pos ==> !CommentAt(line, k)
    requires forall k :: pos <= k < min ==> line[k] != ';' && line[k] != '\'' && line[k] != '"'
    ensures QuoteAt(line, min).None? && forall k :: 0 <= k < min ==> !CommentAt(line, k)
  {
    PlainRun(line, pos, min);
  }

  /** Skipping a closed string leaves the scan outside strings just after its closing quote. */
  lemma SkipString(line: String, min: nat, next: nat, q: char)
    requires min < next < |line| && (q == '\'' || q == '"') && line[min] == q && line[next] == q
    requires QuoteAt(line, min).None? && forall k :: 0 <= k < min ==> !CommentAt(line, k)
    requires forall k :: min + 1 <= k < next ==> line[k] != q
    ensures QuoteAt(line, next + 1).None? && forall k :: 0 <= k < next + 1 ==> !CommentAt(line, k)
  {
    assert QuoteAt(line, min + 1) == Some(q);
    forall k | min + 1 <= k <= next ensures QuoteAt(line, k) == Some(q) {
      QuotedRun(line, min + 1, k, q);
    }
  }

  /** A string that is never closed hides every `;` after it. */
  lemma OpenString(line: String, min: nat, q: char)
    requires min < |line| && (q == '\'' || q == '"') && line[min] == q
    requires QuoteAt(line, min).None? && forall k :: 0 <= k < min ==> !CommentAt(line, k)
    requires forall k :: min + 1 <= k < |line| ==> line[k] != q
    ensures CommentStart(line, 0) == |line|
  {
    assert QuoteAt(line, min + 1) == Some(q);
    forall k | min + 1 <= k < |line| ensures QuoteAt(line, k) == Some(q) {
      QuotedRun(line, min + 1, k, q);
    }
    CommentStartIs(line, |line|);
  }

  /**
   * `_trimLine`. The scan jumps from quote to quote with `indexOf`; it ends
   * at the first `;` met outside a string, or at the end of the line when
   * there is none or a string is not closed.
   */
  method TrimLine(line: String) returns (r: String)
    ensures r == TrimmedLine(line)
    ensures |r| <= CommentStart(line, 0) && r == line[..|r|] && (r == [] || !IsSpace(r[|r| - 1]))
    ensures AllSpace(line[|r|..CommentStart(line, 0)])
  {
    var flag := true;
    var pos: nat := 0;
    while flag
      invariant pos <= |line|
      invariant flag ==> QuoteAt(line, pos).None? && forall k :: 0 <= k < pos ==> !CommentAt(line, k)
      invariant !flag ==> pos == CommentStart(line, 0)
      decreases |line| - pos, flag
    {
      pos, flag := ScanStep(line, pos);
    }
    var cut := line;
    if pos != |line| {
      cut := Substr(line, 0, pos);
    }
    r := TrimRight(cut);
    TrimRightSpec(cut);
    assert cut == line[..pos];
    assert line[..pos][..|r|] == line[..|r|];
  }

  /** One pass of the `_trimLine` loop body from `pos`. */
  method ScanStep(line: String, pos: nat) returns (next: nat, flag: bool)
    requires pos <= |line|
    requires QuoteAt(line, pos).None? && forall k :: 0 <= k < pos ==> !CommentAt(line, k)
    ensures next <= |line|
    ensures flag ==> pos < next && QuoteAt(line, next).None? && forall k :: 0 <= k < next ==> !CommentAt(line, k)
    ensures !flag ==> pos <= next && next == CommentStart(line, 0)
  {
    var idxComment := IndexOf(line, ";", pos);
    var idxSingle := IndexOf(line, "'", pos);
    var idxDouble := IndexOf(line, "\"", pos);
    IndexOfSingle(line, ';', pos);
    IndexOfSingle(line, '\'', pos);
    IndexOfSingle(line, '"', pos);
    var min := Min3(if idxComment == -1 then |line| else idxComment,
                    if idxSingle == -1 then |line| else idxSingle,
                    if idxDouble == -1 then |line| else idxDouble);
    SkipPlain(line, pos, min);
    if min == |line| {
      CommentStartIs(line, |line|);
      next, flag := |line|, false;
    } else if idxComment == min {
      CommentStartIs(line, min);
      next, flag := idxComment, false;
    } else {
      var q := if idxSingle == min then '\'' else '"';
      next, flag := SkipQuoted(line, min, q);
    }
  }

  /** The string branch of one pass: from the opening quote at `min`, past the closing one, or to the end when there is none. */
  method SkipQuoted(line: String, min: nat, q: char) returns (next: nat, flag: bool)
    requires min < |line| && (q == '\'' || q == '"') && line[min] == q
    requires QuoteAt(line, min).None? && forall k :: 0 <= k < min ==> !CommentAt(line, k)
    ensures next <= |line|
    ensures flag ==> min < next && QuoteAt(line, next).None? && forall k :: 0 <= k < next ==> !CommentAt(line, k)
    ensures !flag ==> next == CommentStart(line, 0)
  {
    var close := IndexOf(line, [q], min + 1);
    IndexOfSingle(line, q, min + 1);
    if close == -1 {
      OpenString(line, min, q);
      next, flag := |line|, false;
    } else {
      SkipString(line, min, close, q);
      next, flag := close + 1, true;
    }
  }

  function Min3(a: int, b: int, c: int): (m: int)
    ensures m <= a && m <= b && m <= c
    ensures m == a || m == b || m == c
  {
    if a <= b && a <= c then a else if b <= c then b else c
  }

  /** `_trimLine` cuts a trailing comment. */
  lemma TrimLineCutsComment()
    ensures TrimmedLine("a = b + c;test with comments") == "a = b + c"
  {
    var l := "a = b + c;test with comments";
    forall k | 0 <= k < 9 ensures !CommentAt(l, k) {
      assert l[k] != ';';
    }
    PlainRun(l, 0, 9);
    assert CommentAt(l, 9);
    CommentStartIs(l, 9);
    var cut := l[..9];
    assert |cut| == 9 && forall i :: 0 <= i < 9 ==> cut[i] == "a = b + c"[i];
    assert cut == "a = b + c";
  }

  /** `_trimLine` keeps a `;` inside a string and drops the comment and the white space before it. */
  lemma TrimLineKeepsQuoted()
    ensures TrimmedLine("';test' ; comments") == "';test'"
  {
    var l := "';test' ; comments";
    assert QuoteAt(l, 1) == Some('\'');
    QuotedRun(l, 1, 6, '\'');
    assert QuoteAt(l, 7).None?;
    PlainRun(l, 7, 8);
    forall k | 0 <= k < 8 ensures !CommentAt(l, k) {
      if 1 <= k <= 6 {
        QuotedRun(l, 1, k, '\'');
      }
    }
    CommentStartIs(l, 8);
    var cut := l[..8];
    assert cut == "';test' ";
    assert TrimRight(cut) == TrimRight(cut[..7]);
  }

  /** The cleaned lines of a file: each `\n`-separated line, right-trimmed and then stripped of its comment. */
  function CleanedLines(text: String): (r: seq<String>)
    ensures |r| == |Split(text, "\n")|
  {
    var split := Split(text, "\n");
    seq(|split|, i requires 0 <= i < |split| => TrimmedLine(TrimRight(split[i])))
  }

  /** The non-empty lines, in order. */
  function NonEmpty(lines: seq<String>): (r: seq<String>)
    ensures |r| <= |lines|
    ensures forall i :: 0 <= i < |r| ==> r[i] != [] && r[i] in lines
  {
    if |lines| == 0 then []
    else if lines[|lines| - 1] == [] then NonEmpty(lines[..|lines| - 1])
    else NonEmpty(lines[..|lines| - 1]) + [lines[|lines| - 1]]
  }

  /** Cleaning keeps one line per source line, so line numbers of the cleaned text are those of the file. */
  lemma {:induction false} LinesPreserved(text: String)
    ensures |CleanedLines(text)| == Count(text, '\n') + 1
    ensures Split(Join(CleanedLines(text), "\n"), "\n") == CleanedLines(text)
  {
    var split := Split(text, "\n");
    var lines := CleanedLines(text);
    SplitCount(text, '\n');
    SplitPiecesFree(text, '\n');
    forall i | 0 <= i < |lines| ensures '\n' !in lines[i] {
      var t := TrimRight(split[i]);
      TrimRightSpec(split[i]);
      TrimRightSpec(t[..CommentStart(t, 0)]);
      assert t == split[i][..|t|];
      assert lines[i] == TrimRight(t[..CommentStart(t, 0)]);
      assert lines[i] == split[i][..|lines[i]|];
    }
    SplitJoin(lines, '\n');
  }

  class FileHelper {
    /** The raw text last read for each file. */
    var strings: map<Uri, String>
    /** The cleaned text of each file, lines joined by `\n`. */
    var regexString: map<Uri, String>
    /** The cleaned lines of each file, one per source line. */
    var regexStrings: map<Uri, seq<String>>
    /** The cleaned lines of each file without the empty ones. */
    var cleanStrings: map<Uri, seq<String>>

    /** The four caches agree: every cleaned entry comes from the raw text stored for that file. */
    ghost predicate Valid()
      reads this
    {
      regexString.Keys == regexStrings.Keys == cleanStrings.Keys &&
      regexString.Keys <= strings.Keys &&
      forall uri :: uri in regexStrings ==>
        regexStrings[uri] == CleanedLines(strings[uri]) &&
        regexString[uri] == Join(regexStrings[uri], "\n") &&
        cleanStrings[uri] == NonEmpty(regexStrings[uri])
    }

    constructor()
      ensures Valid()
      ensures strings == map[] && regexString == map[] && regexStrings == map[] && cleanStrings == map[]
    {
      strings := map[];
      regexString := map[];
      regexStrings := map[];
      cleanStrings := map[];
    }

    /** `_getStrings`: the document text comes from the editor or the disk and is given here as `source`. */
    method GetStrings(uri: Uri, source: String) returns (r: String)
      modifies this
      ensures r == source
      ensures strings == old(strings)[uri := source]
      ensures regexString == old(regexString) && regexStrings == old(regexStrings)
      ensures cleanStrings == old(cleanStrings)
    {
      strings := strings[uri := source];
      r := source;
    }

    /** `_cleanStrings`: stores the cleaned lines, their `\n`-join, and the non-empty ones. */
    method CleanStrings(uri: Uri, text: String)
      modifies this
      ensures regexStrings == old(regexStrings)[uri := CleanedLines(text)]
      ensures regexString == old(regexString)[uri := Join(CleanedLines(text), "\n")]
      ensures cleanStrings == old(cleanStrings)[uri := NonEmpty(CleanedLines(text))]
      ensures strings == old(strings)
    {
      var strs: seq<String> := [];
      var noComments: seq<String> := [];
      var split := Split(text, "\n");
      var idx := 0;
      while idx < |split|
        invariant 0 <= idx <= |split|
        invariant noComments == CleanedLines(text)[..idx]
        invariant strs == NonEmpty(noComments)
        invariant strings == old(strings) && regexStrings == old(regexStrings)
        invariant regexString == old(regexString) && cleanStrings == old(cleanStrings)
      {
        var line := TrimLine(TrimRight(split[idx]));
        assert noComments + [line] == CleanedLines(text)[..idx + 1];
        noComments := noComments + [line];
        assert noComments[..|noComments| - 1] == CleanedLines(text)[..idx];
        idx := idx + 1;
        if line == [] {
          continue;
        }
        strs := strs + [line];
      }
      assert noComments == CleanedLines(text);
      regexStrings := regexStrings[uri := noComments];
      regexString := regexString[uri := Join(noComments, "\n")];
      cleanStrings := cleanStrings[uri := strs];
    }

    /** `remove`: forgets the file in all four caches and nothing else. */
    method Remove(uri: Uri)
      requires Valid()
      modifies this
      ensures Valid()
      ensures strings == old(strings) - {uri}
      ensures regexString == old(regexString) - {uri}
      ensures regexStrings == old(regexStrings) - {uri}
      ensures cleanStrings == old(cleanStrings) - {uri}
    {
      strings := strings - {uri};
      regexString := regexString - {uri};
      regexStrings := regexStrings - {uri};
      cleanStrings := cleanStrings - {uri};
    }

    /** Reads and cleans the file when it is not cached or `updating` is set. */
    method Refresh(uri: Uri, source: String, updating: bool)
      requires Valid()
      modifies this
      ensures Valid()
      ensures uri in regexString && uri in regexStrings
      ensures (old(uri in regexString) && !updating) ==>
                strings == old(strings) && regexString == old(regexString) &&
                regexStrings == old(regexStrings) && cleanStrings == old(cleanStrings)
      ensures !(old(uri in regexString) && !updating) ==>
                strings == old(strings)[uri := source] &&
                regexStrings == old(regexStrings)[uri := CleanedLines(source)] &&
                regexString == old(regexString)[uri := Join(CleanedLines(source), "\n")] &&
                cleanStrings == old(cleanStrings)[uri := NonEmpty(CleanedLines(source))]
    {
      var ok := uri in regexString;
      if !ok || updating {
        var s := GetStrings(uri, source);
        CleanStrings(uri, s);
      }
    }

    /** `getFileString`: the cleaned text, recomputed only when absent or when `updating`. */
    method GetFileString(uri: Uri, source: String, updating: bool) returns (r: String)
      requires Valid()
      modifies this
      ensures Valid()
      ensures (old(uri in regexString) && !updating) ==>
                r == old(regexString)[uri] && strings == old(strings) && regexString == old(regexString) &&
                regexStrings == old(regexStrings) && cleanStrings == old(cleanStrings)
      ensures !(old(uri in regexString) && !updating) ==>
                r == Join(CleanedLines(source), "\n") && regexString == old(regexString)[uri := r] &&
                strings == old(strings)[uri := source]
      ensures r == Join(regexStrings[uri], "\n")
    {
      Refresh(uri, source, updating);
      r := regexString[uri];
    }

    /** `getFileStrings`: the cleaned lines, recomputed only when absent or when `updating`. */
    method GetFileStrings(uri: Uri, source: String, updating: bool) returns (r: seq<String>)
      requires Valid()
      modifies this
      ensures Valid()
      ensures (old(uri in regexString) && !updating) ==>
                r == old(regexStrings)[uri] && strings == old(strings) && regexString == old(regexString) &&
                regexStrings == old(regexStrings) && cleanStrings == old(cleanStrings)
      ensures !(old(uri in regexString) && !updating) ==>
                r == CleanedLines(source) && regexStrings == old(regexStrings)[uri := r] &&
                strings == old(strings)[uri := source]
      ensures r == CleanedLines(strings[uri])
    {
      Refresh(uri, source, updating);
      r := regexStrings[uri];
    }
  }
}
