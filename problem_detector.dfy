/**
 * `IDLProblemDetector`: duplicate routine definitions across the older
 * workspace index. Every pair of entries under one name with equal kind and
 * equal detail is reported twice, once at each entry's document and range;
 * each pass recomputes the problems from scratch and publishes them, with
 * an empty list for every document whose problems are gone.
 */
module ProblemDetector {
  import opened Text
  import opened Lsp
  import opened SymbolIndex
  import DocumentSymbolManager

  /** The `problems` field: diagnostics by document, and the documents in the order `Object.keys` gives them. */
  datatype Problems = Problems(byUri: map<Uri, seq<Diagnostic>>, order: seq<Uri>)

  /** One `push` onto `problems[uri]`. */
  datatype Push = Push(uri: Uri, diagnostic: Diagnostic)

  /** One `sendDiagnostics` call. */
  datatype Publish = Publish(uri: Uri, diagnostics: seq<Diagnostic>)

  /** A pair of positions in one name's entry list, `i` before `j`. */
  datatype Pair = Pair(i: nat, j: nat)

  const NoProblems := Problems(map[], [])

  const DuplicateMessage := "Duplicate routine definition"

  /** The order lists each document with problems exactly once. */
  ghost predicate ProblemsAligned(p: Problems)
  {
    NoDuplicates(p.order) && forall u :: u in p.byUri <==> u in p.order
  }

  /** Two entries are reported as duplicates when kind and detail agree; detail tells functions from procedures. */
  predicate SameRoutine(a: Lookup, b: Lookup)
  {
    a.symbol.kind == b.symbol.kind && a.symbol.detail == b.symbol.detail
  }

  /** Positions `r < c` of a name's entry list hold a duplicate pair. */
  predicate Matches(es: seq<Lookup>, r: nat, c: nat)
  {
    r < c < |es| && SameRoutine(es[r], es[c])
  }

  /** The diagnostic pushed for one entry of a duplicate pair. */
  function DuplicateAt(e: Lookup): Push
  {
    Push(e.uri, Diagnostic(Error, e.symbol.range, DuplicateMessage, Some("")))
  }

  /** One push: a document's list is created on its first problem. */
  function Record(p: Problems, x: Push): Problems
  {
    if x.uri in p.byUri then p.(byUri := p.byUri[x.uri := p.byUri[x.uri] + [x.diagnostic]])
    else Problems(p.byUri[x.uri := [x.diagnostic]], p.order + [x.uri])
  }

  /** The pushes in order. */
  function RecordAll(p: Problems, xs: seq<Push>): Problems
  {
    if |xs| == 0 then p else Record(RecordAll(p, xs[..|xs| - 1]), xs[|xs| - 1])
  }

  /** The diagnostics a list of pushes sends to `u`, in order. */
  function DiagnosticsFor(xs: seq<Push>, u: Uri): seq<Diagnostic>
  {
    if |xs| == 0 then []
    else DiagnosticsFor(xs[..|xs| - 1], u) + (if xs[|xs| - 1].uri == u then [xs[|xs| - 1].diagnostic] else [])
  }

  /** The diagnostics of a document, none when it has no list. */
  function DiagnosticsAt(p: Problems, u: Uri): seq<Diagnostic>
  {
    if u in p.byUri then p.byUri[u] else []
  }

  /** The matching pairs `(i, j')` of the inner loop for row `i`, with `i < j' < j`. */
  function RowUpTo(es: seq<Lookup>, i: nat, j: nat): seq<Pair>
    requires j <= |es|
  {
    if j <= i + 1 then []
    else
      var row := RowUpTo(es, i, j - 1);
      if Matches(es, i, j - 1) then row + [Pair(i, j - 1)] else row
  }

  /** The matching pairs of the first `i` rows of the nested loops, in loop order. */
  function PairsBefore(es: seq<Lookup>, i: nat): seq<Pair>
    requires i <= |es|
  {
    if i == 0 then [] else PairsBefore(es, i - 1) + RowUpTo(es, i - 1, |es|)
  }

  /** All matching pairs of a name's entries, in loop order. */
  function Pairs(es: seq<Lookup>): seq<Pair>
  {
    PairsBefore(es, |es|)
  }

  /** The pairs are positions in a list of `n` entries. */
  predicate PairsIn(ps: seq<Pair>, n: nat)
  {
    forall a :: 0 <= a < |ps| ==> ps[a].i < n && ps[a].j < n
  }

  /** The two pushes of each pair in turn: the first entry's, then the second's. */
  function PairPushes(es: seq<Lookup>, ps: seq<Pair>): (r: seq<Push>)
  {
    if |ps| == 0 then []
    else
      var p := ps[|ps| - 1];
      PairPushes(es, ps[..|ps| - 1]) + (if p.i < |es| && p.j < |es| then [DuplicateAt(es[p.i]), DuplicateAt(es[p.j])] else [])
  }

  /** The pushes for one name: nothing unless it has more than one entry. */
  function KeyPushes(es: seq<Lookup>): seq<Push>
  {
    if |es| > 1 then PairPushes(es, Pairs(es)) else []
  }

  /** The pushes of `_resolveRoutineProblems` over the names `keys`, in order. */
  function KeysPushes(symbols: map<String, seq<Lookup>>, keys: seq<String>): seq<Push>
    requires forall k :: k in keys ==> k in symbols
  {
    if |keys| == 0 then []
    else KeysPushes(symbols, keys[..|keys| - 1]) + KeyPushes(symbols[keys[|keys| - 1]])
  }

  /** The problems a pass computes from the index: from nothing. */
  function Resolved(ix: Index): Problems
    requires KeysAligned(ix)
  {
    RecordAll(NoProblems, KeysPushes(ix.symbols, ix.symbolKeys))
  }

  /** The sends for the new problems, document by document. */
  function SendNew(p: Problems, order: seq<Uri>): seq<Publish>
    requires forall u :: u in order ==> u in p.byUri
  {
    if |order| == 0 then []
    else SendNew(p, order[..|order| - 1]) + [Publish(order[|order| - 1], p.byUri[order[|order| - 1]])]
  }

  /** The empty sends for the documents of `existing` that no longer have problems. */
  function SendCleared(existing: seq<Uri>, p: Problems): seq<Publish>
  {
    if |existing| == 0 then []
    else
      var u := existing[|existing| - 1];
      SendCleared(existing[..|existing| - 1], p) + (if u in p.byUri then [] else [Publish(u, [])])
  }

  /** All sends of `detectAndSendProblems`, from the old and the new problems. */
  function Sends(old_: Problems, new_: Problems): seq<Publish>
    requires ProblemsAligned(new_)
  {
    SendNew(new_, new_.order) + SendCleared(old_.order, new_)
  }

  // ---------------------------------------------------------------------
  // The detector
  // ---------------------------------------------------------------------

  class IDLProblemDetector {
    const manager: DocumentSymbolManager.IDLDocumentSymbolManager
    var problems: map<Uri, seq<Diagnostic>>
    /** The keys of `problems` in insertion order, the order `Object.keys` returns them in. */
    var problemUris: seq<Uri>

    function State(): Problems
      reads this
    {
      Problems(problems, problemUris)
    }

    ghost predicate Valid()
      reads this
    {
      ProblemsAligned(State())
    }

    constructor(manager: DocumentSymbolManager.IDLDocumentSymbolManager)
      ensures Valid() && State() == NoProblems && this.manager == manager
    {
      this.manager := manager;
      problems := map[];
      problemUris := [];
    }

    /** One `push` onto `problems[uri]`, creating the list first when the document has none. */
    method Add(x: Push)
      modifies this
      ensures State() == Record(old(State()), x)
    {
      if x.uri !in problems {
        problems := problems[x.uri := [x.diagnostic]];
        problemUris := problemUris + [x.uri];
      } else {
        problems := problems[x.uri := problems[x.uri] + [x.diagnostic]];
      }
    }

    /** The nested loops for one name's entries. */
    method ResolveKey(es: seq<Lookup>)
      modifies this
      ensures State() == RecordAll(old(State()), KeyPushes(es))
    {
      if |es| > 1 {
        for i := 0 to |es|
          invariant State() == RecordAll(old(State()), PairPushes(es, PairsBefore(es, i)))
        {
          ResolveRow(es, i);
          BeforeStep(es, i, old(State()));
        }
      }
    }

    /** The inner loop: entry `i` against every later entry of the same name. */
    method ResolveRow(es: seq<Lookup>, i: nat)
      requires i < |es|
      modifies this
      ensures State() == RecordAll(old(State()), PairPushes(es, RowUpTo(es, i, |es|)))
    {
      var ref := es[i];
      for j := i + 1 to |es|
        invariant State() == RecordAll(old(State()), PairPushes(es, RowUpTo(es, i, j)))
      {
        var compare := es[j];
        RowStep(es, i, j, old(State()));
        if ref.symbol.kind == compare.symbol.kind && ref.symbol.detail == compare.symbol.detail {
          Add(DuplicateAt(ref));
          Add(DuplicateAt(compare));
        }
      }
    }

    /** `_resolveRoutineProblems`: every name of the manager's table in turn. */
    method ResolveRoutineProblems()
      requires manager.Valid()
      modifies this
      ensures State() == RecordAll(old(State()), KeysPushes(manager.symbols, manager.symbolKeys))
    {
      var symbols := manager.symbols;
      var keys := manager.symbolKeys;
      assert forall k :: k in keys ==> k in symbols;
      for k := 0 to |keys|
        invariant State() == RecordAll(old(State()), KeysPushes(symbols, keys[..k]))
      {
        assert keys[..k + 1][..k] == keys[..k];
        ghost var before := State();
        ResolveKey(symbols[keys[k]]);
        RecordAllAppend(old(State()), KeysPushes(symbols, keys[..k]), KeyPushes(symbols[keys[k]]));
      }
      assert keys[..|keys|] == keys;
    }

    /**
     * `detectAndSendProblems`: the old documents are remembered, the
     * problems are recomputed from nothing, each document with problems is
     * sent its list and each old document without problems now is sent an
     * empty list.
     */
    method DetectAndSendProblems() returns (sends: seq<Publish>)
      requires manager.Valid() && Valid()
      modifies this
      ensures Valid()
      ensures State() == Resolved(manager.State())
      ensures sends == Sends(old(State()), State())
    {
      var existing := problemUris;
      problems := map[];
      problemUris := [];
      ResolveRoutineProblems();
      RecordAllAligned(NoProblems, KeysPushes(manager.symbols, manager.symbolKeys));
      var sentNew := SendProblems();
      var cleared := SendClearedProblems(existing);
      sends := sentNew + cleared;
    }

    /** The first loop of the sends: each document with problems, its list. */
    method SendProblems() returns (sends: seq<Publish>)
      requires Valid()
      ensures sends == SendNew(State(), problemUris)
    {
      sends := [];
      for t := 0 to |problemUris|
        invariant sends == SendNew(State(), problemUris[..t])
      {
        assert problemUris[..t + 1][..t] == problemUris[..t];
        var uri := problemUris[t];
        sends := sends + [Publish(uri, problems[uri])];
      }
      assert problemUris[..|problemUris|] == problemUris;
    }

    /** The second loop of the sends: each document of `existing` without problems now, an empty list. */
    method SendClearedProblems(existing: seq<Uri>) returns (sends: seq<Publish>)
      ensures sends == SendCleared(existing, State())
    {
      sends := [];
      for t := 0 to |existing|
        invariant sends == SendCleared(existing[..t], State())
      {
        assert existing[..t + 1][..t] == existing[..t];
        var uri := existing[t];
        if uri !in problems {
          sends := sends + [Publish(uri, [])];
        }
      }
      assert existing[..|existing|] == existing;
    }
  }

  // ---------------------------------------------------------------------
  // Properties
  // ---------------------------------------------------------------------

  /** One turn of the outer loop records row `i` after the rows before it. */
  lemma BeforeStep(es: seq<Lookup>, i: nat, start: Problems)
    requires i < |es|
    ensures RecordAll(RecordAll(start, PairPushes(es, PairsBefore(es, i))), PairPushes(es, RowUpTo(es, i, |es|))) ==
      RecordAll(start, PairPushes(es, PairsBefore(es, i + 1)))
  {
    assert PairsBefore(es, i + 1) == PairsBefore(es, i) + RowUpTo(es, i, |es|);
    PairPushesAppend(es, PairsBefore(es, i), RowUpTo(es, i, |es|));
    RecordAllAppend(start, PairPushes(es, PairsBefore(es, i)), PairPushes(es, RowUpTo(es, i, |es|)));
  }

  /** The pushes of two lists of pairs are the pushes of each in turn. */
  lemma {:induction false} PairPushesAppend(es: seq<Lookup>, ps: seq<Pair>, qs: seq<Pair>)
    ensures PairPushes(es, ps + qs) == PairPushes(es, ps) + PairPushes(es, qs)
    decreases |qs|
  {
    if |qs| == 0 {
      assert ps + qs == ps;
    } else {
      assert (ps + qs)[..|ps + qs| - 1] == ps + qs[..|qs| - 1];
      PairPushesAppend(es, ps, qs[..|qs| - 1]);
    }
  }

  /** One turn of the inner loop records the pair's two diagnostics, the first entry's then the second's, when the entries match, and nothing otherwise. */
  lemma RowStep(es: seq<Lookup>, i: nat, j: nat, start: Problems)
    requires i < j < |es|
    ensures RecordAll(start, PairPushes(es, RowUpTo(es, i, j + 1))) ==
      if SameRoutine(es[i], es[j])
      then Record(Record(RecordAll(start, PairPushes(es, RowUpTo(es, i, j))), DuplicateAt(es[i])), DuplicateAt(es[j]))
      else RecordAll(start, PairPushes(es, RowUpTo(es, i, j)))
  {
    if SameRoutine(es[i], es[j]) {
      PairStep(es, RowUpTo(es, i, j), Pair(i, j), start);
    }
  }

  /** One more matching pair records its two diagnostics, the first entry's then the second's. */
  lemma PairStep(es: seq<Lookup>, ps: seq<Pair>, p: Pair, start: Problems)
    requires p.i < |es| && p.j < |es|
    ensures RecordAll(start, PairPushes(es, ps + [p])) ==
      Record(Record(RecordAll(start, PairPushes(es, ps)), DuplicateAt(es[p.i])), DuplicateAt(es[p.j]))
  {
    var ps' := ps + [p];
    assert ps'[..|ps|] == ps;
    var xs := PairPushes(es, ps);
    var ys := xs + [DuplicateAt(es[p.i]), DuplicateAt(es[p.j])];
    assert PairPushes(es, ps') == ys;
    assert ys[..|ys| - 1] == xs + [DuplicateAt(es[p.i])];
    assert (xs + [DuplicateAt(es[p.i])])[..|xs|] == xs;
  }

  /** Recording two lists of pushes in a row is recording their concatenation. */
  lemma {:induction false} RecordAllAppend(p: Problems, a: seq<Push>, b: seq<Push>)
    ensures RecordAll(p, a + b) == RecordAll(RecordAll(p, a), b)
    decreases |b|
  {
    if |b| == 0 {
      assert a + b == a;
    } else {
      assert (a + b)[..|a + b| - 1] == a + b[..|b| - 1];
      RecordAllAppend(p, a, b[..|b| - 1]);
    }
  }

  /** Recording keeps the document order in step with the lists. */
  lemma {:induction false} RecordAllAligned(p: Problems, xs: seq<Push>)
    requires ProblemsAligned(p)
    ensures ProblemsAligned(RecordAll(p, xs))
  {
    if |xs| > 0 {
      RecordAllAligned(p, xs[..|xs| - 1]);
      var q := RecordAll(p, xs[..|xs| - 1]);
      var u := xs[|xs| - 1].uri;
      if u !in q.byUri {
        var r := Record(q, xs[|xs| - 1]);
        forall a, b | 0 <= a < b < |r.order| ensures r.order[a] != r.order[b] {
          if b == |q.order| {
            assert q.order[a] in q.order;
          }
        }
      }
    }
  }

  /**
   * What recording leaves: every document's list is what it had followed by
   * exactly the diagnostics pushed for it, in push order, and a document has
   * a list exactly when it had one or some push was for it.
   */
  lemma {:induction false} RecordAllRule(p: Problems, xs: seq<Push>, u: Uri)
    ensures DiagnosticsAt(RecordAll(p, xs), u) == DiagnosticsAt(p, u) + DiagnosticsFor(xs, u)
    ensures u in RecordAll(p, xs).byUri <==> u in p.byUri || exists a :: 0 <= a < |xs| && xs[a].uri == u
  {
    if |xs| > 0 {
      var init := xs[..|xs| - 1];
      RecordAllRule(p, init, u);
      if u !in p.byUri && u !in RecordAll(p, xs[..|xs| - 1]).byUri && xs[|xs| - 1].uri != u {
        forall a | 0 <= a < |xs| ensures xs[a].uri != u {
          if a < |init| {
            assert xs[a] == init[a];
          }
        }
      }
      if u in RecordAll(p, xs).byUri && u !in p.byUri && xs[|xs| - 1].uri != u {
        var a :| 0 <= a < |init| && init[a].uri == u;
        assert xs[a] == init[a];
      }
    }
  }

  /**
   * The nested loops visit exactly the matching pairs: `(i, j)` is listed
   * exactly when `i < j` are positions of entries with equal kind and
   * detail, once each, in increasing order of `i` and then `j`.
   */
  lemma PairsRule(es: seq<Lookup>)
    ensures forall i: nat, j: nat :: Pair(i, j) in Pairs(es) <==> i < j < |es| && SameRoutine(es[i], es[j])
    ensures forall a, b :: 0 <= a < b < |Pairs(es)| ==> Before(Pairs(es)[a], Pairs(es)[b])
  {
    forall i: nat, j: nat ensures Pair(i, j) in Pairs(es) <==> i < j < |es| && SameRoutine(es[i], es[j]) {
      PairsBeforeHas(es, |es|, i, j);
    }
    PairsBeforeOrdered(es, |es|);
  }

  /** Loop order on pairs: by row, then by column. */
  predicate Before(p: Pair, q: Pair)
  {
    p.i < q.i || (p.i == q.i && p.j < q.j)
  }

  /** Every pair of row `i` below column `j` is `(i, c)` with `i < c < j`. */
  lemma {:induction false} RowUpToBounds(es: seq<Lookup>, i: nat, j: nat)
    requires j <= |es|
    ensures forall a :: 0 <= a < |RowUpTo(es, i, j)| ==> RowUpTo(es, i, j)[a].i == i && i < RowUpTo(es, i, j)[a].j < j
  {
    if j > i + 1 {
      RowUpToBounds(es, i, j - 1);
    }
  }

  /** Every pair of the first `i` rows is `(r, c)` with `r < i` and `r < c < |es|`. */
  lemma {:induction false} PairsBeforeBounds(es: seq<Lookup>, i: nat)
    requires i <= |es|
    ensures forall a :: 0 <= a < |PairsBefore(es, i)| ==>
      PairsBefore(es, i)[a].i < i && PairsBefore(es, i)[a].i < PairsBefore(es, i)[a].j < |es|
  {
    if i > 0 {
      PairsBeforeBounds(es, i - 1);
      RowUpToBounds(es, i - 1, |es|);
      var front := PairsBefore(es, i - 1);
      var row := RowUpTo(es, i - 1, |es|);
      assert PairsBefore(es, i) == front + row;
      var all: seq<Pair> := front + row;
      forall a | 0 <= a < |all| ensures all[a].i < i && all[a].i < all[a].j < |es| {
        if a >= |front| {
          assert all[a] == row[a - |front|];
        }
      }
    }
  }

  /** Row `i` below column `j` lists column `c` exactly when `c` is in range and matches. */
  lemma {:induction false} RowUpToHas(es: seq<Lookup>, i: nat, j: nat, c: nat)
    requires i < j <= |es|
    ensures Pair(i, c) in RowUpTo(es, i, j) <==> c < j && Matches(es, i, c)
  {
    if j > i + 1 {
      RowUpToHas(es, i, j - 1, c);
      RowUpToBounds(es, i, j - 1);
    }
  }

  /** A row lists its columns in increasing order. */
  lemma {:induction false} RowUpToOrdered(es: seq<Lookup>, i: nat, j: nat)
    requires j <= |es|
    ensures forall a, b :: 0 <= a < b < |RowUpTo(es, i, j)| ==> RowUpTo(es, i, j)[a].j < RowUpTo(es, i, j)[b].j
  {
    if j > i + 1 {
      RowUpToOrdered(es, i, j - 1);
      RowUpToBounds(es, i, j - 1);
    }
  }

  /** The first `i` rows list pair `(r, c)` exactly when its row is below `i` and it matches. */
  lemma {:induction false} PairsBeforeHas(es: seq<Lookup>, i: nat, r: nat, c: nat)
    requires i <= |es|
    ensures Pair(r, c) in PairsBefore(es, i) <==> r < i && Matches(es, r, c)
  {
    if i > 0 {
      var front := PairsBefore(es, i - 1);
      var row := RowUpTo(es, i - 1, |es|);
      assert Pair(r, c) in PairsBefore(es, i) <==> Pair(r, c) in front || Pair(r, c) in row by {
        assert PairsBefore(es, i) == front + row;
      }
      PairsBeforeHas(es, i - 1, r, c);
      if r == i - 1 {
        RowUpToHas(es, i - 1, |es|, c);
        assert Pair(r, c) !in front by {
          PairsBeforeBounds(es, i - 1);
          forall a | 0 <= a < |front| ensures front[a] != Pair(r, c) { }
        }
      } else {
        assert Pair(r, c) !in row by {
          RowUpToBounds(es, i - 1, |es|);
          forall a | 0 <= a < |row| ensures row[a] != Pair(r, c) { }
        }
      }
    }
  }

  /** The first `i` rows list their pairs in loop order. */
  lemma {:induction false} PairsBeforeOrdered(es: seq<Lookup>, i: nat)
    requires i <= |es|
    ensures forall a, b :: 0 <= a < b < |PairsBefore(es, i)| ==> Before(PairsBefore(es, i)[a], PairsBefore(es, i)[b])
  {
    if i > 0 {
      PairsBeforeOrdered(es, i - 1);
      PairsBeforeBounds(es, i - 1);
      RowUpToBounds(es, i - 1, |es|);
      var front := PairsBefore(es, i - 1);
      var row := RowUpTo(es, i - 1, |es|);
      RowUpToOrdered(es, i - 1, |es|);
      assert PairsBefore(es, i) == front + row;
      forall a, b | 0 <= a < b < |front + row| ensures Before((front + row)[a], (front + row)[b]) {
        if b >= |front| && a < |front| {
          assert (front + row)[a] == front[a] && (front + row)[b] == row[b - |front|];
        } else if a >= |front| {
          assert (front + row)[a] == row[a - |front|] && (front + row)[b] == row[b - |front|];
        }
      }
    }
  }

  /**
   * The diagnostics for one name: two per matching pair, the first entry's
   * at its document and range, then the second's, pair by pair.
   */
  lemma {:induction false} PairPushesRule(es: seq<Lookup>, ps: seq<Pair>)
    requires PairsIn(ps, |es|)
    ensures |PairPushes(es, ps)| == 2 * |ps|
    ensures forall a :: 0 <= a < |ps| ==>
      PairPushes(es, ps)[2 * a] == DuplicateAt(es[ps[a].i]) && PairPushes(es, ps)[2 * a + 1] == DuplicateAt(es[ps[a].j])
  {
    if |ps| > 0 {
      var init := ps[..|ps| - 1];
      PairPushesRule(es, init);
      forall a | 0 <= a < |init| ensures init[a] == ps[a] { }
    }
  }

  /**
   * The reports for one name: none with fewer than two entries; otherwise
   * two per matching pair (equal kind and detail, no kind exempt), at the
   * two entries' documents and ranges, as Errors with the duplicate message.
   */
  lemma KeyPushesRule(es: seq<Lookup>)
    ensures |es| < 2 ==> KeyPushes(es) == []
    ensures |es| >= 2 ==> (|KeyPushes(es)| == 2 * |Pairs(es)| &&
      forall a :: 0 <= a < |Pairs(es)| ==>
        Pairs(es)[a].i < Pairs(es)[a].j < |es| &&
        KeyPushes(es)[2 * a] == DuplicateAt(es[Pairs(es)[a].i]) &&
        KeyPushes(es)[2 * a + 1] == DuplicateAt(es[Pairs(es)[a].j]))
  {
    if |es| >= 2 {
      PairsBeforeBounds(es, |es|);
      PairPushesRule(es, Pairs(es));
    }
  }

  /**
   * A pass recomputes from scratch: whatever the old problems were, a
   * document's diagnostics are exactly those pushed for it over the names of
   * the table, and it has a list exactly when some push was for it.
   */
  lemma ResolvedRule(ix: Index, u: Uri)
    requires KeysAligned(ix)
    ensures DiagnosticsAt(Resolved(ix), u) == DiagnosticsFor(KeysPushes(ix.symbols, ix.symbolKeys), u)
    ensures u in Resolved(ix).byUri <==>
      exists a :: 0 <= a < |KeysPushes(ix.symbols, ix.symbolKeys)| && KeysPushes(ix.symbols, ix.symbolKeys)[a].uri == u
  {
    RecordAllRule(NoProblems, KeysPushes(ix.symbols, ix.symbolKeys), u);
  }

  /** The new sends list each document of `order` once, with its diagnostics. */
  lemma {:induction false} SendNewRule(p: Problems, order: seq<Uri>)
    requires forall u :: u in order ==> u in p.byUri
    ensures |SendNew(p, order)| == |order|
    ensures forall a :: 0 <= a < |order| ==> SendNew(p, order)[a] == Publish(order[a], p.byUri[order[a]])
  {
    if |order| > 0 {
      var init := order[..|order| - 1];
      SendNewRule(p, init);
      forall a | 0 <= a < |init| ensures init[a] == order[a] { }
    }
  }

  /** The empty sends go to exactly the documents of `existing` without a list, in their order. */
  lemma {:induction false} SendClearedRule(existing: seq<Uri>, p: Problems)
    ensures forall x :: x in SendCleared(existing, p) <==> x.uri in existing && x.uri !in p.byUri && x.diagnostics == []
    ensures NoDuplicates(existing) ==> NoDuplicates(UrisOf(SendCleared(existing, p)))
  {
    if |existing| > 0 {
      var init := existing[..|existing| - 1];
      var u := existing[|existing| - 1];
      SendClearedRule(init, p);
      assert existing == init + [u];
      if NoDuplicates(existing) {
        assert NoDuplicates(init) by {
          forall a, b | 0 <= a < b < |init| ensures init[a] != init[b] {
            assert init[a] == existing[a] && init[b] == existing[b];
          }
        }
        var front := SendCleared(init, p);
        if u !in p.byUri {
          var r := front + [Publish(u, [])];
          assert u !in init by {
            forall a | 0 <= a < |init| ensures init[a] != u {
              assert init[a] == existing[a];
            }
          }
          forall a, b | 0 <= a < b < |r| ensures r[a].uri != r[b].uri {
            if b == |front| {
              assert r[a] in front;
            } else {
              assert UrisOf(front)[a] == r[a].uri && UrisOf(front)[b] == r[b].uri;
            }
          }
        } else {
          assert SendCleared(existing, p) == front;
        }
      }
    }
  }

  /** The documents of a list of sends, in order. */
  function UrisOf(sends: seq<Publish>): (r: seq<Uri>)
    ensures |r| == |sends| && forall a :: 0 <= a < |sends| ==> r[a] == sends[a].uri
  {
    seq(|sends|, a requires 0 <= a < |sends| => sends[a].uri)
  }

  /** Publishing reaches every document with problems now, with its list, and every document cleared since, with an empty list. */
  lemma SendsCover(old_: Problems, new_: Problems)
    requires ProblemsAligned(old_) && ProblemsAligned(new_)
    ensures forall u :: u in new_.byUri ==> Publish(u, new_.byUri[u]) in Sends(old_, new_)
    ensures forall u :: u in old_.byUri && u !in new_.byUri ==> Publish(u, []) in Sends(old_, new_)
  {
    var sn := SendNew(new_, new_.order);
    SendNewRule(new_, new_.order);
    SendClearedRule(old_.order, new_);
    forall u | u in new_.byUri ensures Publish(u, new_.byUri[u]) in Sends(old_, new_) {
      var a :| 0 <= a < |new_.order| && new_.order[a] == u;
      assert sn[a] in sn;
    }
  }

  /** Publishing sends nothing else: a document with problems gets its list, any other one sent to had problems before and gets an empty list. */
  lemma SendsOnly(old_: Problems, new_: Problems, x: Publish)
    requires ProblemsAligned(old_) && ProblemsAligned(new_)
    requires x in Sends(old_, new_)
    ensures (x.uri in new_.byUri && x.diagnostics == new_.byUri[x.uri]) ||
      (x.uri in old_.byUri && x.uri !in new_.byUri && x.diagnostics == [])
  {
    var sn := SendNew(new_, new_.order);
    SendNewRule(new_, new_.order);
    SendClearedRule(old_.order, new_);
    if x in sn {
      var a :| 0 <= a < |sn| && sn[a] == x;
    }
  }

  /** Publishing sends to each document at most once. */
  lemma SendsOnce(old_: Problems, new_: Problems)
    requires ProblemsAligned(old_) && ProblemsAligned(new_)
    ensures NoDuplicates(UrisOf(Sends(old_, new_)))
  {
    var sn := SendNew(new_, new_.order);
    var sc := SendCleared(old_.order, new_);
    SendNewRule(new_, new_.order);
    SendClearedRule(old_.order, new_);
    var s := sn + sc;
    forall a, b | 0 <= a < b < |s| ensures s[a].uri != s[b].uri {
      if b < |sn| {
        assert s[a] == sn[a] && s[b] == sn[b];
      } else if a >= |sn| {
        assert s[a] == sc[a - |sn|] && s[b] == sc[b - |sn|];
        assert UrisOf(sc)[a - |sn|] == s[a].uri && UrisOf(sc)[b - |sn|] == s[b].uri;
      } else {
        assert s[a] == sn[a] && s[b] in sc;
      }
    }
  }
}
