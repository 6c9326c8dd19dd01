/**
 * The built-in routine table of `IDLRoutineHelper`: how each entry of the
 * documentation list is labelled, classified and given its insert text,
 * which of the four lookup tables (functions, procedures, constants,
 * other) its lower-case label lands in, and what the optimized completion
 * search returns for the hits of the fuzzy matcher.
 */
module RoutineTable {
  import opened Text
  import opened Lsp

  /** One entry of the documentation list as loaded: its label may be `null`. */
  datatype RawDoc = RawDoc(
    labelText: Option<String>,
    kind: Option<CompletionItemKind>,
    insertText: Option<String>,
    documentation: Option<String>)

  /** The four lookup tables, in the order the classification tries them. */
  datatype Table = FunctionTable | ProcedureTable | ConstantTable | OtherTable

  /** The four lookup tables: lower-case label to index in the documentation list. */
  datatype Lookups = Lookups(
    functions: map<String, nat>,
    procedures: map<String, nat>,
    constants: map<String, nat>,
    other: map<String, nat>)
  {
    /** The table of one kind. */
    function Of(t: Table): map<String, nat>
    {
      match t
      case FunctionTable => functions
      case ProcedureTable => procedures
      case ConstantTable => constants
      case OtherTable => other
    }

    /** The tables with `lc` entered into table `t` at index `i`. */
    function Put(t: Table, lc: String, i: nat): (r: Lookups)
      ensures r.Of(t) == Of(t)[lc := i]
      ensures forall u :: u != t ==> r.Of(u) == Of(u)
    {
      match t
      case FunctionTable => this.(functions := functions[lc := i])
      case ProcedureTable => this.(procedures := procedures[lc := i])
      case ConstantTable => this.(constants := constants[lc := i])
      case OtherTable => this.(other := other[lc := i])
    }

    /** Every index the tables hold is below `n`. */
    predicate Within(n: nat)
    {
      (forall k :: k in functions ==> functions[k] < n) &&
      (forall k :: k in procedures ==> procedures[k] < n) &&
      (forall k :: k in constants ==> constants[k] < n) &&
      (forall k :: k in other ==> other[k] < n)
    }

    /** The `switch (true)` of `completion`: the index in the first table that holds `lc`. */
    function Resolve(lc: String): (r: Option<nat>)
      ensures r.Some? <==> lc in functions || lc in procedures || lc in constants || lc in other
      ensures r.Some? ==> exists t :: lc in Of(t) && Of(t)[lc] == r.value
    {
      if lc in functions then (assert lc in Of(FunctionTable); Some(functions[lc]))
      else if lc in procedures then (assert lc in Of(ProcedureTable); Some(procedures[lc]))
      else if lc in constants then (assert lc in Of(ConstantTable); Some(constants[lc]))
      else if lc in other then (assert lc in Of(OtherTable); Some(other[lc]))
      else None
    }
  }

  /** `idlRoutines.functions[str]` as a test: a missing index reads `undefined`, which is false. */
  predicate Flag(flags: map<nat, bool>, idx: nat)
  {
    idx in flags && flags[idx]
  }

  /** The label, with `null` replaced by `!null` before any other use. */
  function LabelOf(d: RawDoc): String
  {
    if d.labelText.Some? then d.labelText.value else "!null"
  }

  /** The classification: the function flag first, then the procedure flag, then a leading `!`. */
  function TableOf(fns: map<nat, bool>, pros: map<nat, bool>, idx: nat, name: String): Table
  {
    if Flag(fns, idx) then FunctionTable
    else if Flag(pros, idx) then ProcedureTable
    else if StartsWith(name, "!") then ConstantTable
    else OtherTable
  }

  /** The completion kind each table gives its entries. */
  function KindOf(t: Table): CompletionItemKind
  {
    match t
    case FunctionTable => FunctionItem
    case ProcedureTable => FunctionItem
    case ConstantTable => ConstantItem
    case OtherTable => TextItem
  }

  /** The insert text after the classification: a call opener for routines, unchanged otherwise. */
  function TableInsert(t: Table, name: String, insertText: Option<String>): Option<String>
  {
    match t
    case FunctionTable => Some(name + "(")
    case ProcedureTable => Some(name + ",")
    case _ => insertText
  }

  /**
   * The two task rewrites that follow, in order: `ENVI…Task` becomes
   * `ENVITask('…')`, then `IDL…Task` becomes `IDLTask('…')`, the name cut
   * out with `substr(0, length - 4)` and `substr(4)` or `substr(3)`.
   */
  function TaskInsert(name: String, insertText: Option<String>): Option<String>
  {
    var afterEnvi :=
      if StartsWith(name, "ENVI") && EndsWith(name, "Task")
      then Some("ENVITask('" + SubstrFrom(Substr(name, 0, |name| - 4), 4) + "')")
      else insertText;
    if StartsWith(name, "IDL") && EndsWith(name, "Task")
    then Some("IDLTask('" + SubstrFrom(Substr(name, 0, |name| - 4), 3) + "')")
    else afterEnvi
  }

  /** One entry after the `forEach` body of `_parseRoutines` has rewritten it. */
  function ParsedItem(d: RawDoc, idx: nat, fns: map<nat, bool>, pros: map<nat, bool>): CompletionItem
  {
    var name := LabelOf(d);
    var t := TableOf(fns, pros, idx, name);
    CompletionItem(name, Some(KindOf(t)), TaskInsert(name, TableInsert(t, name, d.insertText)), d.documentation)
  }

  /** The first `k` entries of the documentation list, rewritten. */
  function ParsedDocs(raw: seq<RawDoc>, fns: map<nat, bool>, pros: map<nat, bool>, k: nat): (r: seq<CompletionItem>)
    requires k <= |raw|
    ensures |r| == k
  {
    seq(k, i requires 0 <= i < k => ParsedItem(raw[i], i, fns, pros))
  }

  /** The lower-case label of entry `i`: its key in the lookup tables. */
  function Key(raw: seq<RawDoc>, i: nat): String
    requires i < |raw|
  {
    LowerStr(LabelOf(raw[i]))
  }

  /** The table entry `i` is classified into. */
  function TableAt(raw: seq<RawDoc>, fns: map<nat, bool>, pros: map<nat, bool>, i: nat): Table
    requires i < |raw|
  {
    TableOf(fns, pros, i, LabelOf(raw[i]))
  }

  /** The table `t` after the first `k` entries: each entry of that table writes its key, later ones overwrite. */
  function TableMap(raw: seq<RawDoc>, fns: map<nat, bool>, pros: map<nat, bool>, t: Table, k: nat): map<String, nat>
    requires k <= |raw|
  {
    if k == 0 then map[]
    else
      var m := TableMap(raw, fns, pros, t, k - 1);
      if TableAt(raw, fns, pros, k - 1) == t then m[Key(raw, k - 1) := k - 1] else m
  }

  /** The four tables after the first `k` entries. */
  function TablesAfter(raw: seq<RawDoc>, fns: map<nat, bool>, pros: map<nat, bool>, k: nat): Lookups
    requires k <= |raw|
  {
    Lookups(TableMap(raw, fns, pros, FunctionTable, k), TableMap(raw, fns, pros, ProcedureTable, k),
            TableMap(raw, fns, pros, ConstantTable, k), TableMap(raw, fns, pros, OtherTable, k))
  }

  /** One more entry enters its key into its own table and leaves the others alone. */
  lemma TablesStep(raw: seq<RawDoc>, fns: map<nat, bool>, pros: map<nat, bool>, k: nat)
    requires k < |raw|
    ensures TablesAfter(raw, fns, pros, k + 1) == TablesAfter(raw, fns, pros, k).Put(TableAt(raw, fns, pros, k), Key(raw, k), k)
  {
    var l := TablesAfter(raw, fns, pros, k);
    var l' := TablesAfter(raw, fns, pros, k + 1);
    var r := l.Put(TableAt(raw, fns, pros, k), Key(raw, k), k);
    assert l'.functions == r.Of(FunctionTable);
    assert l'.procedures == r.Of(ProcedureTable);
    assert l'.constants == r.Of(ConstantTable);
    assert l'.other == r.Of(OtherTable);
  }

  /** The first `k` labels, as `routineKeys` holds them. */
  function Labels(raw: seq<RawDoc>, k: nat): (r: seq<String>)
    requires k <= |raw|
    ensures |r| == k
  {
    seq(k, i requires 0 <= i < k => LabelOf(raw[i]))
  }

  /** The first `k` prepared labels, as `routineKeysSearch` holds them. */
  function SearchKeys(raw: seq<RawDoc>, k: nat): (r: seq<Prepared>)
    requires k <= |raw|
    ensures |r| == k
  {
    seq(k, i requires 0 <= i < k => Prepared(LabelOf(raw[i])))
  }

  /**
   * The optimized `completion` for the fuzzy hits `hits` (indices into the
   * prepared keys), in order: each hit's lower-case target is resolved in
   * the tables and its entry taken; the first hit no table holds makes the
   * whole call return `undefined`.
   */
  function Found(docs: seq<CompletionItem>, l: Lookups, keys: seq<Prepared>, hits: seq<nat>): Option<seq<CompletionItem>>
    requires l.Within(|docs|) && ValidHits(hits, |keys|)
  {
    if |hits| == 0 then Some([])
    else
      match Found(docs, l, keys, hits[..|hits| - 1])
      case None => None
      case Some(items) =>
        match l.Resolve(LowerStr(keys[hits[|hits| - 1]].target))
        case None => None
        case Some(i) => (assert l.Within(|docs|); ResolveWithin(l, LowerStr(keys[hits[|hits| - 1]].target), |docs|); Some(items + [docs[i]]))
  }

  /** A resolved index is an index of the documentation list. */
  lemma ResolveWithin(l: Lookups, lc: String, n: nat)
    requires l.Within(n) && l.Resolve(lc).Some?
    ensures l.Resolve(lc).value < n
  {
  }

  // ---------------------------------------------------------------------
  // Properties
  // ---------------------------------------------------------------------

  /**
   * The `Task` label rewrites: an `ENVI…Task` label (at least eight characters, as
   * the prefix and suffix cannot overlap) is inserted as `ENVITask('name')`
   * with the name between them, an `IDL…Task` label (at least seven) as
   * `IDLTask('name')`, whatever the classification chose, and every other
   * label keeps the insert text the classification chose.
   */
  lemma TaskInsertRule(name: String, insertText: Option<String>)
    ensures StartsWith(name, "ENVI") && EndsWith(name, "Task") ==>
      |name| >= 8 && TaskInsert(name, insertText) == Some("ENVITask('" + name[4..|name| - 4] + "')")
    ensures StartsWith(name, "IDL") && EndsWith(name, "Task") ==>
      |name| >= 7 && TaskInsert(name, insertText) == Some("IDLTask('" + name[3..|name| - 4] + "')")
    ensures !(StartsWith(name, "ENVI") && EndsWith(name, "Task")) && !(StartsWith(name, "IDL") && EndsWith(name, "Task")) ==>
      TaskInsert(name, insertText) == insertText
  {
    if StartsWith(name, "ENVI") && EndsWith(name, "Task") {
      var n := |name|;
      assert name[n - 4] == 'T';
      assert name[0] == 'E';
      assert !StartsWith(name, "IDL");
      assert SubstrFrom(Substr(name, 0, n - 4), 4) == name[4..n - 4];
    }
    if StartsWith(name, "IDL") && EndsWith(name, "Task") {
      var n := |name|;
      assert name[n - 4] == 'T';
      assert SubstrFrom(Substr(name, 0, n - 4), 3) == name[3..n - 4];
    }
  }

  /**
   * One rewritten entry: the label is the loaded one or `!null`; the kind
   * follows the table, so Function for both routine tables, Constant for a
   * `!` label that no flag claims and Text for the rest; a label that is not
   * a task gets `label(` as a function, `label,` as a procedure, and keeps
   * its insert text otherwise.
   */
  lemma ParsedItemRule(d: RawDoc, idx: nat, fns: map<nat, bool>, pros: map<nat, bool>)
    ensures var r := ParsedItem(d, idx, fns, pros);
      var name := if d.labelText == None then "!null" else d.labelText.value;
      var task := (StartsWith(name, "ENVI") || StartsWith(name, "IDL")) && EndsWith(name, "Task");
      r.labelText == name && r.documentation == d.documentation &&
      (Flag(fns, idx) ==> r.kind == Some(FunctionItem) && (!task ==> r.insertText == Some(name + "("))) &&
      (!Flag(fns, idx) && Flag(pros, idx) ==> r.kind == Some(FunctionItem) && (!task ==> r.insertText == Some(name + ","))) &&
      (!Flag(fns, idx) && !Flag(pros, idx) && StartsWith(name, "!") ==>
         r.kind == Some(ConstantItem) && (!task ==> r.insertText == d.insertText)) &&
      (!Flag(fns, idx) && !Flag(pros, idx) && !StartsWith(name, "!") ==>
         r.kind == Some(TextItem) && (!task ==> r.insertText == d.insertText))
  {
    var name := LabelOf(d);
    TaskInsertRule(name, TableInsert(TableOf(fns, pros, idx, name), name, d.insertText));
  }

  /** An entry of table `t` among the first `k` has its key in that table. */
  lemma {:induction false} TableMapHas(raw: seq<RawDoc>, fns: map<nat, bool>, pros: map<nat, bool>, t: Table, k: nat, i: nat)
    requires i < k <= |raw| && TableAt(raw, fns, pros, i) == t
    ensures Key(raw, i) in TableMap(raw, fns, pros, t, k)
  {
    if i < k - 1 {
      TableMapHas(raw, fns, pros, t, k - 1, i);
    }
  }

  /** Every key of table `t` points back at an entry of that table carrying that key. */
  lemma {:induction false} TableMapPoints(raw: seq<RawDoc>, fns: map<nat, bool>, pros: map<nat, bool>, t: Table, k: nat, lc: String)
    requires k <= |raw| && lc in TableMap(raw, fns, pros, t, k)
    ensures TableMap(raw, fns, pros, t, k)[lc] < k
    ensures TableAt(raw, fns, pros, TableMap(raw, fns, pros, t, k)[lc]) == t
    ensures Key(raw, TableMap(raw, fns, pros, t, k)[lc]) == lc
  {
    if !(TableAt(raw, fns, pros, k - 1) == t && Key(raw, k - 1) == lc) {
      TableMapPoints(raw, fns, pros, t, k - 1, lc);
    }
  }

  /** The entry a key points at is the last of its table with that key: later ones overwrite. */
  lemma {:induction false} TableMapLast(raw: seq<RawDoc>, fns: map<nat, bool>, pros: map<nat, bool>, t: Table, k: nat, lc: String, j: nat)
    requires k <= |raw| && lc in TableMap(raw, fns, pros, t, k)
    requires TableMap(raw, fns, pros, t, k)[lc] < j < k && TableAt(raw, fns, pros, j) == t
    ensures Key(raw, j) != lc
  {
    if !(TableAt(raw, fns, pros, k - 1) == t && Key(raw, k - 1) == lc) && j < k - 1 {
      TableMapLast(raw, fns, pros, t, k - 1, lc, j);
    }
  }

  /**
   * With no two labels equal up to case, every entry's key is in exactly
   * one table, the one it was classified into, and points at that entry.
   */
  lemma UniqueKeysTables(raw: seq<RawDoc>, fns: map<nat, bool>, pros: map<nat, bool>, i: nat)
    requires i < |raw|
    requires forall a, b :: 0 <= a < b < |raw| ==> Key(raw, a) != Key(raw, b)
    ensures forall t :: Key(raw, i) in TableMap(raw, fns, pros, t, |raw|) <==> t == TableAt(raw, fns, pros, i)
    ensures TableMap(raw, fns, pros, TableAt(raw, fns, pros, i), |raw|)[Key(raw, i)] == i
  {
    forall t | Key(raw, i) in TableMap(raw, fns, pros, t, |raw|)
      ensures TableMap(raw, fns, pros, t, |raw|)[Key(raw, i)] == i && t == TableAt(raw, fns, pros, i)
    {
      TableMapPoints(raw, fns, pros, t, |raw|, Key(raw, i));
    }
    TableMapHas(raw, fns, pros, TableAt(raw, fns, pros, i), |raw|, i);
  }

  /** The tables after `k` entries only hold indices below `k`. */
  lemma TablesWithin(raw: seq<RawDoc>, fns: map<nat, bool>, pros: map<nat, bool>, k: nat)
    requires k <= |raw|
    ensures TablesAfter(raw, fns, pros, k).Within(k)
  {
    var l := TablesAfter(raw, fns, pros, k);
    forall t, lc | lc in l.Of(t) ensures l.Of(t)[lc] < k {
      TableMapPoints(raw, fns, pros, t, k, lc);
    }
    assert l.functions == l.Of(FunctionTable) && l.procedures == l.Of(ProcedureTable);
    assert l.constants == l.Of(ConstantTable) && l.other == l.Of(OtherTable);
  }

  /**
   * The optimized completion returns a list exactly when every hit's
   * lower-case target is in some table, and then one entry per hit, in
   * order: the entry of the first table holding that target.
   */
  lemma {:induction false} FoundRule(docs: seq<CompletionItem>, l: Lookups, keys: seq<Prepared>, hits: seq<nat>)
    requires l.Within(|docs|) && ValidHits(hits, |keys|)
    ensures Found(docs, l, keys, hits).Some? <==>
      forall i :: 0 <= i < |hits| ==> l.Resolve(LowerStr(keys[hits[i]].target)).Some?
    ensures Found(docs, l, keys, hits).Some? ==>
      var r := Found(docs, l, keys, hits).value;
      |r| == |hits| &&
      forall i :: 0 <= i < |hits| ==>
        (l.Resolve(LowerStr(keys[hits[i]].target)).value < |docs| &&
         r[i] == docs[l.Resolve(LowerStr(keys[hits[i]].target)).value])
  {
    if |hits| > 0 {
      var init := hits[..|hits| - 1];
      FoundRule(docs, l, keys, init);
      var last := LowerStr(keys[hits[|hits| - 1]].target);
      forall i | 0 <= i < |init| ensures init[i] == hits[i] { }
      if Found(docs, l, keys, init).Some? && l.Resolve(last).Some? {
        ResolveWithin(l, last, |docs|);
        var items := Found(docs, l, keys, init).value;
        var r := items + [docs[l.Resolve(last).value]];
        assert Found(docs, l, keys, hits) == Some(r);
        forall i | 0 <= i < |hits|
          ensures l.Resolve(LowerStr(keys[hits[i]].target)).value < |docs| &&
            r[i] == docs[l.Resolve(LowerStr(keys[hits[i]].target)).value]
        {
          ResolveWithin(l, LowerStr(keys[hits[i]].target), |docs|);
          if i < |init| {
            assert r[i] == items[i];
          }
        }
      } else if Found(docs, l, keys, init).None? {
        var i :| 0 <= i < |init| && l.Resolve(LowerStr(keys[init[i]].target)).None?;
        assert hits[i] == init[i];
      }
    }
  }

  /**
   * On the tables `_parseRoutines` builds, the optimized completion never
   * returns `undefined`: every hit's label is in some table, and each entry
   * returned carries that label up to case.
   */
  lemma ParsedFound(raw: seq<RawDoc>, fns: map<nat, bool>, pros: map<nat, bool>, hits: seq<nat>)
    requires ValidHits(hits, |raw|)
    ensures TablesAfter(raw, fns, pros, |raw|).Within(|raw|)
    ensures var r := Found(ParsedDocs(raw, fns, pros, |raw|), TablesAfter(raw, fns, pros, |raw|), SearchKeys(raw, |raw|), hits);
      r.Some? && |r.value| == |hits| &&
      forall i :: 0 <= i < |hits| ==> LowerStr(r.value[i].labelText) == Key(raw, hits[i])
  {
    var n := |raw|;
    var docs := ParsedDocs(raw, fns, pros, n);
    var l := TablesAfter(raw, fns, pros, n);
    var keys := SearchKeys(raw, n);
    TablesWithin(raw, fns, pros, n);
    forall i | 0 <= i < |hits| ensures l.Resolve(LowerStr(keys[hits[i]].target)).Some? {
      assert LowerStr(keys[hits[i]].target) == Key(raw, hits[i]);
      ParsedResolves(raw, fns, pros, hits[i]);
    }
    FoundRule(docs, l, keys, hits);
    var r := Found(docs, l, keys, hits).value;
    forall i | 0 <= i < |hits| ensures LowerStr(r[i].labelText) == Key(raw, hits[i]) {
      var lc := LowerStr(keys[hits[i]].target);
      assert lc == Key(raw, hits[i]);
      ParsedResolvesTo(raw, fns, pros, lc);
      assert r[i] == docs[l.Resolve(lc).value];
    }
  }

  /** On the parsed tables, the key of every entry resolves. */
  lemma ParsedResolves(raw: seq<RawDoc>, fns: map<nat, bool>, pros: map<nat, bool>, h: nat)
    requires h < |raw|
    ensures TablesAfter(raw, fns, pros, |raw|).Resolve(Key(raw, h)).Some?
  {
    var t := TableAt(raw, fns, pros, h);
    TableMapHas(raw, fns, pros, t, |raw|, h);
    assert Key(raw, h) in TablesAfter(raw, fns, pros, |raw|).Of(t);
  }

  /** On the parsed tables, a resolved key leads to an entry carrying that key. */
  lemma ParsedResolvesTo(raw: seq<RawDoc>, fns: map<nat, bool>, pros: map<nat, bool>, lc: String)
    requires TablesAfter(raw, fns, pros, |raw|).Resolve(lc).Some?
    ensures TablesAfter(raw, fns, pros, |raw|).Resolve(lc).value < |raw|
    ensures Key(raw, TablesAfter(raw, fns, pros, |raw|).Resolve(lc).value) == lc
  {
    var l := TablesAfter(raw, fns, pros, |raw|);
    var t :| lc in l.Of(t) && l.Of(t)[lc] == l.Resolve(lc).value;
    TableMapPoints(raw, fns, pros, t, |raw|, lc);
  }
}
