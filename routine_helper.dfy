/**
 * `IDLRoutineHelper`: the class that loads the built-in routine list once,
 * rewrites each entry in place while filling the four lookup tables and the
 * two key arrays, and answers routine completion from them. Its methods are
 * proved to leave the fields where the functions of `RoutineTable` say;
 * the facts about those functions are proved there.
 */
module RoutineHelper {
  import opened Text
  import opened Lsp
  import opened RoutineTable

  class IDLRoutineHelper {
    /** `routines.docs`: the documentation list, entry by entry as rewritten. */
    var docs: seq<CompletionItem>
    var functions: map<String, nat>
    var procedures: map<String, nat>
    var constants: map<String, nat>
    var other: map<String, nat>
    var routineKeys: seq<String>
    var routineKeysSearch: seq<Prepared>

    /** The four lookup tables as one value. */
    function Tables(): Lookups
      reads this
    {
      Lookups(functions, procedures, constants, other)
    }

    ghost predicate Valid()
      reads this
    {
      |routineKeys| == |docs| && |routineKeysSearch| == |docs| && Tables().Within(|docs|)
    }

    /**
     * The constructor: empty tables and key arrays, then `_parseRoutines`
     * over the routine list `raw` and its function and procedure flags.
     */
    constructor(raw: seq<RawDoc>, fns: map<nat, bool>, pros: map<nat, bool>)
      ensures Valid()
      ensures docs == ParsedDocs(raw, fns, pros, |raw|) && Tables() == TablesAfter(raw, fns, pros, |raw|)
      ensures routineKeys == Labels(raw, |raw|) && routineKeysSearch == SearchKeys(raw, |raw|)
    {
      docs := [];
      functions := map[];
      procedures := map[];
      constants := map[];
      other := map[];
      routineKeys := [];
      routineKeysSearch := [];
      new;
      ParseRoutines(raw, fns, pros);
    }

    /**
     * `_parseRoutines`: each entry in turn gets its `!null` label, pushes
     * its label and prepared label, is classified into a table under its
     * lower-case label, gets its kind and insert text, and is stored back.
     */
    method ParseRoutines(raw: seq<RawDoc>, fns: map<nat, bool>, pros: map<nat, bool>)
      modifies this
      requires docs == [] && routineKeys == [] && routineKeysSearch == []
      requires functions == map[] && procedures == map[] && constants == map[] && other == map[]
      ensures Valid()
      ensures docs == ParsedDocs(raw, fns, pros, |raw|) && Tables() == TablesAfter(raw, fns, pros, |raw|)
      ensures routineKeys == Labels(raw, |raw|) && routineKeysSearch == SearchKeys(raw, |raw|)
    {
      for idx := 0 to |raw|
        invariant docs == ParsedDocs(raw, fns, pros, idx) && Tables() == TablesAfter(raw, fns, pros, idx)
        invariant routineKeys == Labels(raw, idx) && routineKeysSearch == SearchKeys(raw, idx)
      {
        var d := raw[idx];
        var name := if d.labelText.Some? then d.labelText.value else "!null";
        routineKeys := routineKeys + [name];
        routineKeysSearch := routineKeysSearch + [Prepared(name)];
        var item := Classify(d, name, idx, fns, pros);
        ParsedStep(raw, fns, pros, idx);
        TablesStep(raw, fns, pros, idx);
        docs := docs + [item];
      }
      TablesWithin(raw, fns, pros, |raw|);
    }

    /**
     * The `switch` and the `Task` label rewrites of one turn of `_parseRoutines`:
     * the entry's lower-case label goes into the table it is classified
     * into, and the entry comes back with its label, kind and insert text.
     */
    method Classify(d: RawDoc, name: String, idx: nat, fns: map<nat, bool>, pros: map<nat, bool>) returns (item: CompletionItem)
      modifies this
      requires name == LabelOf(d)
      ensures item == ParsedItem(d, idx, fns, pros)
      ensures Tables() == old(Tables()).Put(TableOf(fns, pros, idx, name), LowerStr(name), idx)
      ensures docs == old(docs) && routineKeys == old(routineKeys) && routineKeysSearch == old(routineKeysSearch)
    {
      var lc := LowerStr(name);
      var insertText := d.insertText;
      var kind;
      if Flag(fns, idx) {
        insertText := Some(name + "(");
        kind := FunctionItem;
        functions := functions[lc := idx];
      } else if Flag(pros, idx) {
        insertText := Some(name + ",");
        kind := FunctionItem;
        procedures := procedures[lc := idx];
      } else if StartsWith(name, "!") {
        kind := ConstantItem;
        constants := constants[lc := idx];
      } else {
        other := other[lc := idx];
        kind := TextItem;
      }
      if StartsWith(name, "ENVI") && EndsWith(name, "Task") {
        insertText := Some("ENVITask('" + SubstrFrom(Substr(name, 0, |name| - 4), 4) + "')");
      }
      if StartsWith(name, "IDL") && EndsWith(name, "Task") {
        insertText := Some("IDLTask('" + SubstrFrom(Substr(name, 0, |name| - 4), 3) + "')");
      }
      item := CompletionItem(name, Some(kind), insertText, d.documentation);
    }

    /**
     * `completion`: without optimization the whole documentation list; with
     * it, the entries the tables give for the fuzzy hits `hits`, in order,
     * or `undefined` at the first hit no table holds.
     */
    method Completion(optimized: bool, hits: seq<nat>) returns (r: Option<seq<CompletionItem>>)
      requires Valid() && ValidHits(hits, |routineKeysSearch|)
      ensures !optimized ==> r == Some(docs)
      ensures optimized ==> r == Found(docs, Tables(), routineKeysSearch, hits)
    {
      if !optimized {
        return Some(docs);
      }
      var items: seq<CompletionItem> := [];
      for idx := 0 to |hits|
        invariant Found(docs, Tables(), routineKeysSearch, hits[..idx]) == Some(items)
      {
        var lc := LowerStr(routineKeysSearch[hits[idx]].target);
        assert hits[..idx + 1][..idx] == hits[..idx];
        if lc in functions {
          items := items + [docs[functions[lc]]];
        } else if lc in procedures {
          items := items + [docs[procedures[lc]]];
        } else if lc in constants {
          items := items + [docs[constants[lc]]];
        } else if lc in other {
          items := items + [docs[other[lc]]];
        } else {
          FoundRule(docs, Tables(), routineKeysSearch, hits);
          return None;
        }
      }
      assert hits[..|hits|] == hits;
      return Some(items);
    }
  }

  /** One turn of `_parseRoutines` extends the rewritten list and both key arrays by entry `k`. */
  lemma ParsedStep(raw: seq<RawDoc>, fns: map<nat, bool>, pros: map<nat, bool>, k: nat)
    requires k < |raw|
    ensures ParsedDocs(raw, fns, pros, k + 1) == ParsedDocs(raw, fns, pros, k) + [ParsedItem(raw[k], k, fns, pros)]
    ensures Labels(raw, k + 1) == Labels(raw, k) + [LabelOf(raw[k])]
    ensures SearchKeys(raw, k + 1) == SearchKeys(raw, k) + [Prepared(LabelOf(raw[k]))]
  {
    assert ParsedDocs(raw, fns, pros, k + 1) == ParsedDocs(raw, fns, pros, k) + [ParsedItem(raw[k], k, fns, pros)];
    assert Labels(raw, k + 1) == Labels(raw, k) + [LabelOf(raw[k])];
    assert SearchKeys(raw, k + 1) == SearchKeys(raw, k) + [Prepared(LabelOf(raw[k]))];
  }
}
