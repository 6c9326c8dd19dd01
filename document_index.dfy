/**
 * The index of the older workspace manager, `IDLDocumentSymbolManager`. It
 * keeps only the table part of the newer index (the map from lower-cased
 * name to entries and the two key arrays), so its state is an `Index` whose
 * other fields stay empty, and it shares the newer index's table steps.
 * It differs in two ways: every symbol is indexed, variables included,
 * and removal reads the entries of a symbol's key unguarded, so a key that
 * is gone makes it throw.
 */
module DocumentIndex {
  import opened Text
  import opened Lsp
  import opened SymbolIndex
  import opened SymbolQueries

  /** The table part of an index: everything else as in a fresh one. */
  function TableOnly(symbols: map<String, seq<Lookup>>, keys: seq<String>, search: seq<Prepared>): (r: Index)
    ensures r.symbols == symbols && r.symbolKeys == keys && r.symbolKeysSearch == search
  {
    EmptyIndex.(symbols := symbols, symbolKeys := keys, symbolKeysSearch := search)
  }

  /** The indexing body of `get.documentSymbols`: each found symbol in turn, whatever its kind. */
  function AddDocSymbols(ix: Index, uri: Uri, found: seq<Symbol>): Index
  {
    if |found| == 0 then ix else AddEntry(AddDocSymbols(ix, uri, found[..|found| - 1]), uri, found[|found| - 1])
  }

  /** The entries of key `k`, none when the key is absent. */
  function EntriesAt(ix: Index, k: String): seq<Lookup>
  {
    if k in ix.symbols then ix.symbols[k] else []
  }

  /** The entries a document's symbols make under key `k`, in their order. */
  function EntriesOf(uri: Uri, found: seq<Symbol>, k: String): seq<Lookup>
  {
    if |found| == 0 then []
    else
      var last := found[|found| - 1];
      EntriesOf(uri, found[..|found| - 1], k) + (if Key(last) == k then [Lookup(uri, last)] else [])
  }

  /** The state after a removal loop, and whether it threw on the way. */
  datatype Removal = Removal(ix: Index, thrown: bool)

  /**
   * `_removeSymbols(uri, symbols)` over the first symbols: each symbol's key
   * is looked up unguarded, so a key no longer in the table throws a
   * `TypeError` and ends the loop with the changes made so far; a present
   * key goes through the table step shared with the newer index.
   */
  function RemoveDocSymbols(ix: Index, uri: Uri, ss: seq<Symbol>): Removal
  {
    if |ss| == 0 then Removal(ix, false)
    else
      var prev := RemoveDocSymbols(ix, uri, ss[..|ss| - 1]);
      var key := Key(ss[|ss| - 1]);
      if prev.thrown then prev
      else if key !in prev.ix.symbols then Removal(prev.ix, true)
      else Removal(RemoveEntries(prev.ix, uri, key), false)
  }

  /**
   * `searchByLine` from the line's selected word on: nothing for an empty
   * word; otherwise the location of the first listed entry, provided its
   * name equals the word up to case. `hits` are the matcher's hits for it.
   */
  function ByLine(ix: Index, word: String, hits: seq<nat>): Option<Location>
    requires HitsIn(ix, hits)
  {
    if word == "" then None
    else
      var infos := ByName(ix, hits);
      if |infos| > 0 && LowerStr(infos[0].name) == LowerStr(word) then Some(infos[0].location) else None
  }

  // ---------------------------------------------------------------------
  // Properties of indexing
  // ---------------------------------------------------------------------

  /** One table step appends the symbol's entry under its key and leaves every other key's entries. */
  lemma AddEntryAt(ix: Index, uri: Uri, s: Symbol, k: String)
    ensures EntriesAt(AddEntry(ix, uri, s), k) == EntriesAt(ix, k) + (if Key(s) == k then [Lookup(uri, s)] else [])
  {
  }

  /**
   * Indexing a document appends, under each key, exactly the entries of the
   * document's symbols with that key, in their order, after those already
   * there; variables and constants are indexed like routines.
   */
  lemma {:induction false} AddDocSymbolsEntries(ix: Index, uri: Uri, found: seq<Symbol>, k: String)
    ensures EntriesAt(AddDocSymbols(ix, uri, found), k) == EntriesAt(ix, k) + EntriesOf(uri, found, k)
  {
    if |found| > 0 {
      var init := found[..|found| - 1];
      AddDocSymbolsEntries(ix, uri, init, k);
      AddEntryAt(AddDocSymbols(ix, uri, init), uri, found[|found| - 1], k);
    }
  }

  /** After indexing, the table holds exactly the keys it held and the keys of the document's symbols. */
  lemma {:induction false} AddDocSymbolsKeys(ix: Index, uri: Uri, found: seq<Symbol>)
    ensures forall k :: k in AddDocSymbols(ix, uri, found).symbols <==> k in ix.symbols || k in Keys(found)
  {
    if |found| > 0 {
      var init := found[..|found| - 1];
      AddDocSymbolsKeys(ix, uri, init);
      assert Keys(found) == Keys(init) + [Key(found[|found| - 1])];
    }
  }

  /** Indexing keeps the key arrays parallel and in step with the table. */
  lemma {:induction false} AddDocSymbolsAligned(ix: Index, uri: Uri, found: seq<Symbol>)
    requires KeysAligned(ix)
    ensures KeysAligned(AddDocSymbols(ix, uri, found))
  {
    if |found| > 0 {
      var init := found[..|found| - 1];
      AddDocSymbolsAligned(ix, uri, init);
      AddEntryAligned(AddDocSymbols(ix, uri, init), uri, found[|found| - 1]);
    }
  }

  // ---------------------------------------------------------------------
  // Properties of removal
  // ---------------------------------------------------------------------

  /** The removal loop keeps the key arrays parallel and in step with the table, whether it throws or not. */
  lemma {:induction false} RemoveDocAligned(ix: Index, uri: Uri, ss: seq<Symbol>)
    requires KeysAligned(ix)
    ensures KeysAligned(RemoveDocSymbols(ix, uri, ss).ix)
  {
    if |ss| > 0 {
      var prev := RemoveDocSymbols(ix, uri, ss[..|ss| - 1]);
      RemoveDocAligned(ix, uri, ss[..|ss| - 1]);
      RemoveEntriesAligned(prev.ix, uri, Key(ss[|ss| - 1]));
    }
  }

  /**
   * With the symbols' keys distinct and all in the table, removal does not
   * throw: a key with one entry leaves the table and the key array, a key
   * with several keeps exactly the other documents' entries (and stays, even
   * with none left), and every other key keeps its entries.
   */
  lemma {:induction false} RemoveDocDistinct(ix: Index, uri: Uri, ss: seq<Symbol>)
    requires KeysAligned(ix) && NoDuplicates(Keys(ss))
    requires forall k :: k in Keys(ss) ==> k in ix.symbols
    ensures !RemoveDocSymbols(ix, uri, ss).thrown
    ensures forall k :: k !in Keys(ss) ==>
      (k in RemoveDocSymbols(ix, uri, ss).ix.symbols <==> k in ix.symbols) &&
      EntriesAt(RemoveDocSymbols(ix, uri, ss).ix, k) == EntriesAt(ix, k)
    ensures forall k :: k in Keys(ss) && |ix.symbols[k]| == 1 ==>
      k !in RemoveDocSymbols(ix, uri, ss).ix.symbols && k !in RemoveDocSymbols(ix, uri, ss).ix.symbolKeys
    ensures forall k :: k in Keys(ss) && |ix.symbols[k]| != 1 ==>
      k in RemoveDocSymbols(ix, uri, ss).ix.symbols &&
      RemoveDocSymbols(ix, uri, ss).ix.symbols[k] == WithoutUri(ix.symbols[k], uri)
  {
    if |ss| > 0 {
      var init := ss[..|ss| - 1];
      var key := Key(ss[|ss| - 1]);
      assert Keys(ss) == Keys(init) + [key];
      assert NoDuplicates(Keys(init)) by {
        forall i, j | 0 <= i < j < |Keys(init)| ensures Keys(init)[i] != Keys(init)[j] {
          assert Keys(init)[i] == Keys(ss)[i] && Keys(init)[j] == Keys(ss)[j];
        }
      }
      assert key !in Keys(init) by {
        forall i | 0 <= i < |Keys(init)| ensures Keys(init)[i] != key {
          assert Keys(ss)[i] == Keys(init)[i] && Keys(ss)[|ss| - 1] == key;
        }
      }
      RemoveDocDistinct(ix, uri, init);
      var prev := RemoveDocSymbols(ix, uri, init);
      RemoveDocAligned(ix, uri, init);
      assert key in prev.ix.symbols && prev.ix.symbols[key] == ix.symbols[key];
      RemoveEntriesRule(prev.ix, uri, key);
      var r := RemoveDocSymbols(ix, uri, ss);
      assert r.ix == RemoveEntries(prev.ix, uri, key);
      RemoveEntriesAligned(prev.ix, uri, key);
    }
  }

  /**
   * A single entry is dropped whichever document owns it: with two entries
   * of `a` and one of `b` under `foo`, removing `a`'s two `foo` symbols
   * filters the list down to `b`'s entry and then, finding one entry,
   * deletes the key, and a later removal of `b` throws.
   */
  lemma SingleEntryOfOtherDocument(s: Symbol)
    requires s.name == "foo"
    ensures var ix := TableOnly(map["foo" := [Lookup("a", s), Lookup("a", s), Lookup("b", s)]], ["foo"], [Prepared("foo")]);
      var afterA := RemoveDocSymbols(ix, "a", [s, s]);
      !afterA.thrown && "foo" !in afterA.ix.symbols && afterA.ix.symbolKeys == [] &&
      RemoveDocSymbols(afterA.ix, "b", [s]).thrown
  {
    assert Key(s) == "foo" by {
      assert LowerStr("foo") == "foo";
    }
    var ix := TableOnly(map["foo" := [Lookup("a", s), Lookup("a", s), Lookup("b", s)]], ["foo"], [Prepared("foo")]);
    assert [s, s][..1] == [s] && [s][..0] == [];
    var one := RemoveDocSymbols(ix, "a", [s]);
    assert WithoutUri([Lookup("a", s), Lookup("a", s), Lookup("b", s)], "a") == [Lookup("b", s)] by {
      var a := Lookup("a", s);
      var es := [a, a, Lookup("b", s)];
      assert [a][..0] == [];
      assert WithoutUri([a], "a") == [];
      assert [a, a][..1] == [a];
      assert WithoutUri([a, a], "a") == [];
      assert es[..2] == [a, a];
    }
    assert RemoveDocSymbols(ix, "a", []) == Removal(ix, false);
    assert one == Removal(RemoveEntries(ix, "a", "foo"), false);
    assert one.ix.symbols == map["foo" := [Lookup("b", s)]] && one.ix.symbolKeys == ["foo"];
    assert Find(["foo"], "foo") == 0;
    assert Splice(["foo"], 0, 1) == [];
  }

  // ---------------------------------------------------------------------
  // Properties of the line search
  // ---------------------------------------------------------------------

  /**
   * `searchByLine` finds nothing for an empty word; otherwise it finds
   * something exactly when the first listed entry (see `ByNameFirst`) has
   * the word as its name up to case, and then gives that entry's location,
   * the location of an entry stored under one of the hit keys.
   */
  lemma ByLineRule(ix: Index, word: String, hits: seq<nat>)
    requires HitsIn(ix, hits)
    ensures word == "" ==> ByLine(ix, word, hits).None?
    ensures word != "" ==>
      (ByLine(ix, word, hits).Some? <==> |ByName(ix, hits)| > 0 && LowerStr(ByName(ix, hits)[0].name) == LowerStr(word))
    ensures ByLine(ix, word, hits).Some? ==>
      |ByName(ix, hits)| > 0 && ByLine(ix, word, hits).value == ByName(ix, hits)[0].location
    ensures ByLine(ix, word, hits).Some? ==>
      exists j, e :: StoredUnder(ix, hits, j, e) && ByLine(ix, word, hits).value == Location(e.uri, e.symbol.range) &&
        LowerStr(e.symbol.name) == LowerStr(word)
  {
    if ByLine(ix, word, hits).Some? {
      var infos := ByName(ix, hits);
      ByNameRule(ix, hits);
      assert infos[0] in infos;
      assert Listed(ix, hits, infos[0]);
      var j, e :| StoredUnder(ix, hits, j, e) && infos[0] == InfoOf(e);
    }
  }
}
