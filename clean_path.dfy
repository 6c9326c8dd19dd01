/**
 * The client's `cleanPath`: an `exec` loop over the drive prefixes
 * `[a-z]:\` of a path (case-insensitive) that, for each one found, replaces
 * the first occurrence of the matched text in the path being cleaned by its
 * upper-case form. Because drive prefixes cannot overlap and the ones already
 * handled are no longer lower case, that first occurrence is always the
 * match itself: the loop upper-cases exactly the drive letters.
 */
module CleanPath {
  import opened Text
  import opened Regex

  /** A drive prefix, a letter followed by `:\`, starts at `i`. */
  predicate DriveStart(s: String, i: int)
  {
    0 <= i && i + 3 <= |s| && IsLetter(s[i]) && s[i + 1] == ':' && s[i + 2] == '\\'
  }

  /** `s` with the letters of the drive prefixes starting before `k` upper-cased. */
  function UpperDrivesBefore(s: String, k: nat): (r: String)
    ensures |r| == |s|
    ensures forall i :: 0 <= i < |s| ==> r[i] == if i < k && DriveStart(s, i) then Upper(s[i]) else s[i]
  {
    seq(|s|, i requires 0 <= i < |s| => if i < k && DriveStart(s, i) then Upper(s[i]) else s[i])
  }

  /** What `cleanPath(uri)` returns: every drive letter upper-cased. */
  function Cleaned(uri: String): String
  {
    UpperDrivesBefore(uri, |uri|)
  }

  /** `cleanPath`. */
  method CleanPath(uri: String) returns (toClean: String)
    ensures toClean == Cleaned(uri)
  {
    toClean := uri;
    var lastIndex: nat := 0;
    var m := NextMatch(Drive, uri, lastIndex);
    while m.Some?
      invariant m == NextMatch(Drive, uri, lastIndex)
      invariant toClean == UpperDrivesBefore(uri, lastIndex)
      decreases |uri| + 1 - lastIndex
    {
      var mv := m.value;
      DriveTurn(uri, lastIndex);
      var found := mv.groups[0];
      toClean := Replace(toClean, found, UpperStr(found));
      lastIndex := mv.End();
      m := NextMatch(Drive, uri, lastIndex);
    }
    NoMoreDrives(uri, lastIndex);
  }

  /** One turn of the loop from `k`: the match found is a drive prefix, and replacing it upper-cases its letter. */
  lemma DriveTurn(uri: String, k: nat)
    requires NextMatch(Drive, uri, k).Some?
    ensures var m := NextMatch(Drive, uri, k).value;
      |m.groups| == 1 && k < m.End() &&
      Replace(UpperDrivesBefore(uri, k), m.groups[0], UpperStr(m.groups[0])) == UpperDrivesBefore(uri, m.End())
  {
    var m := NextMatch(Drive, uri, k).value;
    NextDrive(uri, k);
    ReplaceStep(uri, k, m.index);
  }

  /** What `exec` finds from `k`: the next drive prefix, with none between `k` and it. */
  lemma NextDrive(s: String, k: nat)
    requires NextMatch(Drive, s, k).Some?
    ensures var m := NextMatch(Drive, s, k).value;
      DriveStart(s, m.index) && m.groups == [s[m.index..m.index + 3]] && m.End() == m.index + 3 &&
      forall q :: k <= q < m.index ==> !DriveStart(s, q)
  {
    var m := NextMatch(Drive, s, k).value;
    DriveMatch(s, m.index);
    forall q | k <= q < m.index ensures !DriveStart(s, q) {
      DriveMatch(s, q);
    }
  }

  /** The drive expression matches exactly at the drive prefixes, and the match is the prefix. */
  lemma DriveMatch(s: String, p: nat)
    requires p <= |s|
    ensures MatchAt(Drive, s, p).Some? <==> DriveStart(s, p)
    ensures MatchAt(Drive, s, p).Some? ==> MatchAt(Drive, s, p).value == [s[p..p + 3]]
  {
  }

  /** With no drive prefix from `k` on, nothing more is upper-cased. */
  lemma NoMoreDrives(s: String, k: nat)
    requires NextMatch(Drive, s, k).None?
    ensures UpperDrivesBefore(s, k) == Cleaned(s)
  {
    forall i | k <= i < |s| ensures !DriveStart(s, i) {
      DriveMatch(s, i);
    }
  }

  /**
   * One turn of the loop: with the drive letters before `k` upper-cased and
   * the next drive prefix at `p`, replacing the first occurrence of that
   * prefix by its upper-case form upper-cases the letter at `p`.
   */
  lemma ReplaceStep(uri: String, k: nat, p: nat)
    requires k <= p && DriveStart(uri, p)
    requires forall q :: k <= q < p ==> !DriveStart(uri, q)
    ensures var g := uri[p..p + 3];
      Replace(UpperDrivesBefore(uri, k), g, UpperStr(g)) == UpperDrivesBefore(uri, p + 3)
  {
    if 'a' <= uri[p] <= 'z' {
      FirstOccurrence(uri, k, p);
      LowerStep(uri, k, p);
    } else {
      UpperStays(uri, k, p);
    }
  }

  /** Splicing the upper-case prefix in at `p` upper-cases the letter there and nothing else. */
  lemma LowerStep(uri: String, k: nat, p: nat)
    requires k <= p && DriveStart(uri, p)
    requires forall q :: k <= q < p ==> !DriveStart(uri, q)
    ensures var t := UpperDrivesBefore(uri, k);
      t[..p] + UpperStr(uri[p..p + 3]) + t[p + 3..] == UpperDrivesBefore(uri, p + 3)
  {
    var t := UpperDrivesBefore(uri, k);
    var u := UpperDrivesBefore(uri, p + 3);
    var up := UpperStr(uri[p..p + 3]);
    var r := t[..p] + up + t[p + 3..];
    assert !DriveStart(uri, p + 1) && !DriveStart(uri, p + 2);
    forall i | 0 <= i < |u| ensures r[i] == u[i] {
      if i < p {
        assert r[i] == t[i];
      } else if i < p + 3 {
        assert r[i] == up[i - p] == Upper(uri[i]);
      } else {
        assert r[i] == t[i];
      }
    }
  }

  /** A lower-case drive prefix at `p` is the first occurrence of its text once the earlier ones are upper case. */
  lemma FirstOccurrence(uri: String, k: nat, p: nat)
    requires k <= p && DriveStart(uri, p) && 'a' <= uri[p] <= 'z'
    requires forall q :: k <= q < p ==> !DriveStart(uri, q)
    ensures IndexOf(UpperDrivesBefore(uri, k), uri[p..p + 3], 0) == p
  {
    var t := UpperDrivesBefore(uri, k);
    var g := uri[p..p + 3];
    assert !DriveStart(uri, p + 1) && !DriveStart(uri, p + 2);
    assert OccursAt(t, g, p);
    forall q | 0 <= q < p ensures !OccursAt(t, g, q) {
      if q < k && DriveStart(uri, q) {
        assert 'A' <= t[q] <= 'Z';
      } else {
        assert !DriveStart(uri, q);
      }
    }
  }

  /** An upper-case drive prefix: the replacement rewrites some occurrence of the text by itself. */
  lemma UpperStays(uri: String, k: nat, p: nat)
    requires k <= p && DriveStart(uri, p) && !('a' <= uri[p] <= 'z')
    requires forall q :: k <= q < p ==> !DriveStart(uri, q)
    ensures var g := uri[p..p + 3];
      Replace(UpperDrivesBefore(uri, k), g, UpperStr(g)) == UpperDrivesBefore(uri, p + 3)
  {
    var t := UpperDrivesBefore(uri, k);
    var u := UpperDrivesBefore(uri, p + 3);
    var g := uri[p..p + 3];
    assert UpperStr(g) == g;
    assert !DriveStart(uri, p + 1) && !DriveStart(uri, p + 2);
    forall i | 0 <= i < |u| ensures t[i] == u[i] {
      if k <= i <= p {
        assert t[i] == uri[i];
      }
    }
    assert t == u;
    ReplaceSame(t, g);
  }

  /** Replacing the first occurrence of a text by itself changes nothing. */
  lemma ReplaceSame(t: String, g: String)
    ensures Replace(t, g, g) == t
  {
    var i := IndexOf(t, g, 0);
    if i != -1 {
      assert t[i..i + |g|] == g;
      assert t == t[..i] + t[i..i + |g|] + t[i + |g|..];
    }
  }

  /** The path keeps its length, every drive letter ends up upper case, and nothing else changes. */
  lemma CleanedRule(uri: String)
    ensures var r := Cleaned(uri);
      |r| == |uri| &&
      (forall i :: DriveStart(uri, i) ==> 'A' <= r[i] <= 'Z') &&
      (forall i :: 0 <= i < |uri| && !DriveStart(uri, i) ==> r[i] == uri[i]) &&
      (forall i :: DriveStart(uri, i) <==> DriveStart(r, i))
  {
    var r := Cleaned(uri);
    forall i ensures DriveStart(uri, i) <==> DriveStart(r, i) {
      if 0 <= i && i + 3 <= |uri| {
        if uri[i + 1] == ':' {
          assert !DriveStart(uri, i + 1);
        }
        if uri[i + 2] == '\\' {
          assert !DriveStart(uri, i + 2);
        }
      }
    }
  }

  /** A path without drive prefixes comes back unchanged. */
  lemma NoDriveUnchanged(uri: String)
    requires forall i :: !DriveStart(uri, i)
    ensures Cleaned(uri) == uri
  {
  }

  /** Cleaning a cleaned path changes nothing. */
  lemma CleanedIdempotent(uri: String)
    ensures Cleaned(Cleaned(uri)) == Cleaned(uri)
  {
    var r := Cleaned(uri);
    CleanedRule(uri);
    forall i | 0 <= i < |r| ensures Cleaned(r)[i] == r[i] {
      if DriveStart(r, i) {
        assert DriveStart(uri, i);
      }
    }
  }
}
