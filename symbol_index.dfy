/**
 * The state of the newer workspace symbol index and what each of its steps
 * does to it, as values: indexing one routine of a document, collecting a
 * document's constants, and forgetting one symbol of a removed document.
 * The manager class performs these steps in place; here they are functions
 * so that what they keep and what they change can be stated and proved.
 */
module SymbolIndex {
  import opened Text
  import opened Lsp
  import opened RoutineExtras

  /** The four completion buckets. */
  datatype Bucket = FunctionsBucket | ProceduresBucket | FunctionMethodsBucket | ProcedureMethodsBucket

  /** One array per bucket: the completion items, or the prepared search keys beside them. */
  datatype Buckets<T> = Buckets(functions: seq<T>, procedures: seq<T>, functionMethods: seq<T>, procedureMethods: seq<T>)
  {
    function Get(b: Bucket): seq<T>
    {
      match b
      case FunctionsBucket => functions
      case ProceduresBucket => procedures
      case FunctionMethodsBucket => functionMethods
      case ProcedureMethodsBucket => procedureMethods
    }

    /** `push` onto one bucket: that bucket grows by `x` and the others stay as they are. */
    function Push(b: Bucket, x: T): (r: Buckets<T>)
      ensures r.Get(b) == Get(b) + [x]
      ensures forall c :: c != b ==> r.Get(c) == Get(c)
    {
      match b
      case FunctionsBucket => this.(functions := functions + [x])
      case ProceduresBucket => this.(procedures := procedures + [x])
      case FunctionMethodsBucket => this.(functionMethods := functionMethods + [x])
      case ProcedureMethodsBucket => this.(procedureMethods := procedureMethods + [x])
    }

    /** One bucket replaced by `s`, the others as they are. */
    function With(b: Bucket, s: seq<T>): (r: Buckets<T>)
      ensures r.Get(b) == s
      ensures forall c :: c != b ==> r.Get(c) == Get(c)
      ensures s == Get(b) ==> r == this
    {
      match b
      case FunctionsBucket => this.(functions := s)
      case ProceduresBucket => this.(procedures := s)
      case FunctionMethodsBucket => this.(functionMethods := s)
      case ProcedureMethodsBucket => this.(procedureMethods := s)
    }
  }

  /**
   * The index fields of the manager. `routineCompletionOrder` lists the keys
   * of `routineCompletionLookup` in insertion order, which is the order
   * `Object.values` returns them in (the keys are never integer-like).
   */
  datatype Index = Index(
    symbols: map<String, seq<Lookup>>,
    symbolKeys: seq<String>,
    symbolKeysSearch: seq<Prepared>,
    constantCompletionLookup: map<Uri, seq<CompletionItem>>,
    routineCompletionLookup: map<String, CompletionItem>,
    routineCompletionOrder: seq<String>,
    routineSymbolLookup: map<String, Symbol>,
    quickLookup: Buckets<CompletionItem>,
    quickSearchLookup: Buckets<Prepared>)

  /** The index of a fresh manager: everything empty. */
  const EmptyIndex := Index(map[], [], [], map[], map[], [], map[], Buckets([], [], [], []), Buckets([], [], [], []))

  // ---------------------------------------------------------------------
  // Invariants
  // ---------------------------------------------------------------------

  /** The two key arrays are parallel, and they list each key of `symbols` exactly once. */
  ghost predicate KeysAligned(ix: Index)
  {
    |ix.symbolKeys| == |ix.symbolKeysSearch| &&
    (forall i :: 0 <= i < |ix.symbolKeys| ==> ix.symbolKeysSearch[i] == Prepared(ix.symbolKeys[i])) &&
    NoDuplicates(ix.symbolKeys) &&
    (forall k :: k in ix.symbols <==> k in ix.symbolKeys)
  }

  /** The search array of each bucket is parallel to its item array: the lower-cased labels, prepared. */
  ghost predicate BucketsAligned(items: Buckets<CompletionItem>, search: Buckets<Prepared>)
  {
    forall b ::
      |items.Get(b)| == |search.Get(b)| &&
      forall i :: 0 <= i < |items.Get(b)| ==> search.Get(b)[i] == Prepared(LowerStr(items.Get(b)[i].labelText))
  }

  /** The insertion order lists each key of the routine completion lookup exactly once. */
  ghost predicate OrderAligned(ix: Index)
  {
    NoDuplicates(ix.routineCompletionOrder) &&
    forall k :: k in ix.routineCompletionLookup <==> k in ix.routineCompletionOrder
  }

  /** Variables never reach the symbol table or the routine lookups. */
  ghost predicate NoVariables(ix: Index)
  {
    (forall k, i :: k in ix.symbols && 0 <= i < |ix.symbols[k]| ==> ix.symbols[k][i].symbol.kind != Variable) &&
    (forall k :: k in ix.routineSymbolLookup ==> ix.routineSymbolLookup[k].kind != Variable)
  }

  /** Each routine completion item is filed under its lower-cased label. */
  ghost predicate CompletionsKeyed(ix: Index)
  {
    forall k :: k in ix.routineCompletionLookup ==> LowerStr(ix.routineCompletionLookup[k].labelText) == k
  }

  ghost predicate Valid(ix: Index)
  {
    KeysAligned(ix) && BucketsAligned(ix.quickLookup, ix.quickSearchLookup) && OrderAligned(ix) && NoVariables(ix) &&
    CompletionsKeyed(ix)
  }

  // ---------------------------------------------------------------------
  // Indexing a document
  // ---------------------------------------------------------------------

  /** The key a symbol is indexed under: its lower-cased name. */
  function Key(s: Symbol): String
  {
    LowerStr(s.name)
  }

  /** The name contains `::`, so `split("::")` gives more than one piece. */
  predicate IsMethodSplit(name: String)
  {
    |Split(name, "::")| != 1
  }

  /** The name the completion inserts from: the piece after the first `::` of a method, else the name. */
  function ReplaceName(name: String): String
  {
    var split := Split(name, "::");
    if |split| == 1 then name else split[1]
  }

  /** The bucket a routine goes into, decided by its detail and whether its name is a method's. */
  function BucketOf(s: Symbol): Option<Bucket>
  {
    var isMethod := IsMethodSplit(s.name);
    if Contains(s.detail, "Function") && isMethod then Some(FunctionMethodsBucket)
    else if Contains(s.detail, "Function") then Some(FunctionsBucket)
    else if Contains(s.detail, "Procedure") && isMethod then Some(ProcedureMethodsBucket)
    else if Contains(s.detail, "Procedure") then Some(ProceduresBucket)
    else None
  }

  /** `replaceName.substr(0, replaceName.length - 1)`: everything but the last character. */
  function DropLast(s: String): String
  {
    if |s| == 0 then "" else s[..|s| - 1]
  }

  /** The text a routine's completion inserts. */
  function InsertTextOf(s: Symbol): String
  {
    var rn := ReplaceName(s.name);
    match BucketOf(s)
    case Some(FunctionsBucket) => DropLast(rn)
    case Some(FunctionMethodsBucket) => DropLast(rn)
    case Some(ProceduresBucket) => rn + ","
    case Some(ProcedureMethodsBucket) => rn + ","
    case None => rn
  }

  /** The completion item built for a routine. */
  function CompletionOf(s: Symbol): CompletionItem
  {
    CompletionItem(s.name, Some(CompletionKindOf(s.kind)), Some(InsertTextOf(s)), None)
  }

  /** The table step for one symbol: a new key goes into both arrays, a known key only gets the entry. */
  function AddEntry(ix: Index, uri: Uri, s: Symbol): Index
  {
    var key := Key(s);
    var info := Lookup(uri, s);
    if key in ix.symbols then ix.(symbols := ix.symbols[key := ix.symbols[key] + [info]])
    else ix.(symbols := ix.symbols[key := [info]], symbolKeys := ix.symbolKeys + [key],
             symbolKeysSearch := ix.symbolKeysSearch + [Prepared(key)])
  }

  /** The lookup step for one routine: its bucket, its symbol and its completion item. */
  function AddLookups(ix: Index, s: Symbol): Index
  {
    var key := Key(s);
    var item := CompletionOf(s);
    var b := BucketOf(s);
    var ix1 := if b.Some? then
      ix.(quickLookup := ix.quickLookup.Push(b.value, item),
          quickSearchLookup := ix.quickSearchLookup.Push(b.value, Prepared(key)))
      else ix;
    ix1.(routineSymbolLookup := ix1.routineSymbolLookup[key := s],
         routineCompletionLookup := ix1.routineCompletionLookup[key := item],
         routineCompletionOrder :=
           if key in ix1.routineCompletionLookup then ix1.routineCompletionOrder
           else ix1.routineCompletionOrder + [key])
  }

  /** One turn of the indexing loop: variables are skipped, routines are entered. */
  function AddSymbol(ix: Index, uri: Uri, s: Symbol): Index
  {
    if s.kind == Variable then ix else AddLookups(AddEntry(ix, uri, s), s)
  }

  /** The indexing loop over the first `n` found symbols. */
  function AddSymbols(ix: Index, uri: Uri, found: seq<Symbol>): Index
  {
    if |found| == 0 then ix else AddSymbol(AddSymbols(ix, uri, found[..|found| - 1]), uri, found[|found| - 1])
  }

  /** The lower-cased names of a list of symbols. */
  function Keys(ss: seq<Symbol>): (r: seq<String>)
    ensures |r| == |ss| && forall i :: 0 <= i < |ss| ==> r[i] == Key(ss[i])
  {
    seq(|ss|, i requires 0 <= i < |ss| => Key(ss[i]))
  }

  /** The variables the constant filter keeps: the first one of each lower-cased name. */
  function KeptConstants(found: seq<Symbol>): seq<Symbol>
  {
    if |found| == 0 then []
    else
      var kept := KeptConstants(found[..|found| - 1]);
      var s := found[|found| - 1];
      if s.kind == Variable && Key(s) !in Keys(kept) then kept + [s] else kept
  }

  /** The completion item of a constant. */
  function ConstantCompletion(s: Symbol): CompletionItem
  {
    CompletionItem(s.name, Some(CompletionKindOf(s.kind)), None, None)
  }

  /** What `constantCompletionLookup[uri]` is set to for the found symbols. */
  function ConstantItems(found: seq<Symbol>): (r: seq<CompletionItem>)
    ensures |r| == |KeptConstants(found)|
  {
    var kept := KeptConstants(found);
    seq(|kept|, i requires 0 <= i < |kept| => ConstantCompletion(kept[i]))
  }

  /** The index body of `get.documentSymbols`: the routines entered, then the constants saved. */
  function IndexFound(ix: Index, uri: Uri, found: seq<Symbol>): Index
  {
    var ix1 := AddSymbols(ix, uri, found);
    ix1.(constantCompletionLookup := ix1.constantCompletionLookup[uri := ConstantItems(found)])
  }

  // ---------------------------------------------------------------------
  // Removing a document
  // ---------------------------------------------------------------------

  /** `s.splice(start, deleteCount)` for a non-negative start: what remains, both ends clamped to the array. */
  function Splice<T>(s: seq<T>, start: nat, deleteCount: nat): seq<T>
  {
    var from := if start <= |s| then start else |s|;
    s[..from] + s[if from + deleteCount <= |s| then from + deleteCount else |s|..]
  }

  /** A delete count of 0 removes nothing. */
  lemma SpliceNothing<T>(s: seq<T>, start: nat)
    ensures Splice(s, start, 0) == s
  {
    var from := if start <= |s| then start else |s|;
    assert s[..from] + s[from..] == s;
  }

  /** A delete count of 1 inside the array removes exactly the element at `start`. */
  lemma SpliceOne<T>(s: seq<T>, start: nat)
    requires start < |s|
    ensures Splice(s, start, 1) == s[..start] + s[start + 1..]
  {
  }

  /** The lower-cased labels of a list of items, in order. */
  function LowerLabels(items: seq<CompletionItem>): seq<String>
  {
    seq(|items|, i requires 0 <= i < |items| => LowerStr(items[i].labelText))
  }

  /** `s.indexOf(x)`: the first position of `x`, or -1. */
  function Find(s: seq<String>, x: String): (r: int)
    ensures r == -1 <==> x !in s
    ensures r != -1 ==> 0 <= r < |s| && s[r] == x && forall i :: 0 <= i < r ==> s[i] != x
  {
    if |s| == 0 then -1
    else if s[0] == x then 0
    else var r := Find(s[1..], x); if r == -1 then -1 else r + 1
  }

  /** The entries of a list that do not belong to `uri`, in their order. */
  function WithoutUri(entries: seq<Lookup>, uri: Uri): seq<Lookup>
  {
    if |entries| == 0 then []
    else
      var rest := WithoutUri(entries[..|entries| - 1], uri);
      if entries[|entries| - 1].uri == uri then rest else rest + [entries[|entries| - 1]]
  }

  /** Every element of `s` except `x`. */
  function Drop(s: seq<String>, x: String): seq<String>
  {
    if |s| == 0 then [] else if s[0] == x then Drop(s[1..], x) else [s[0]] + Drop(s[1..], x)
  }

  /** `delete lookup[key]` on the routine completion lookup and its key order. */
  function DeleteRoutine(ix: Index, key: String): Index
  {
    ix.(routineCompletionLookup := ix.routineCompletionLookup - {key},
        routineCompletionOrder := Drop(ix.routineCompletionOrder, key))
  }

  /** The lookup part of removing symbol key `key`: the routine symbol, and the completion entry of `key + "("`. */
  function ClearRoutine(ix: Index, key: String): Index
  {
    var ix1 := if key in ix.routineCompletionLookup then DeleteRoutine(ix, key + "(") else ix;
    ix1.(routineSymbolLookup := ix1.routineSymbolLookup - {key})
  }

  /** The table part of removing key `key` for document `uri`. */
  function RemoveEntries(ix: Index, uri: Uri, key: String): Index
  {
    if key !in ix.symbols then ix
    else if |ix.symbols[key]| == 1 then
      var idx := Find(ix.symbolKeys, key);
      var ix1 := if idx == -1 then ix else
        ix.(symbolKeys := Splice(ix.symbolKeys, idx, 1), symbolKeysSearch := Splice(ix.symbolKeysSearch, idx, 1));
      ix1.(symbols := ix1.symbols - {key})
    else ix.(symbols := ix.symbols[key := WithoutUri(ix.symbols[key], uri)])
  }

  /**
   * One turn of the removal loop for symbol `s` of document `uri`. The
   * completion entry deleted is that of `key + "("`, not `key`; the bucket
   * arrays are spliced with a delete count of 0 and so keep everything; a key
   * with one entry is dropped whichever document that entry belongs to.
   */
  function RemoveSymbol(ix: Index, uri: Uri, s: Symbol): Index
  {
    RemoveEntries(ClearRoutine(ix, Key(s)), uri, Key(s))
  }

  /** The removal loop over the first symbols of a removed document. */
  function RemoveSymbolsFrom(ix: Index, uri: Uri, ss: seq<Symbol>): Index
  {
    if |ss| == 0 then ix else RemoveSymbol(RemoveSymbolsFrom(ix, uri, ss[..|ss| - 1]), uri, ss[|ss| - 1])
  }

  /** `_removeSymbols(uri, symbols)`: the file's constants are dropped, then each symbol is removed. */
  function RemoveSymbols(ix: Index, uri: Uri, ss: seq<Symbol>): Index
  {
    RemoveSymbolsFrom(ix.(constantCompletionLookup := ix.constantCompletionLookup - {uri}), uri, ss)
  }

  // ---------------------------------------------------------------------
  // Properties of indexing
  // ---------------------------------------------------------------------

  /** A name splits on `::` into more than one piece exactly when it contains `::`. */
  lemma MethodSplitRule(name: String)
    ensures IsMethodSplit(name) <==> Contains(name, "::")
  {
    ContainsIff(name, "::");
  }

  /**
   * Each routine goes into exactly one bucket, chosen by its detail (a
   * `Function` detail first) and by whether its name contains `::`; a symbol
   * whose detail names neither goes into none. Functions insert the name
   * without its last character (the `)` of `name()`), procedures insert it
   * followed by `,`, and methods use the part after the first `::`.
   */
  lemma BucketRule(s: Symbol)
    ensures var m := Contains(s.name, "::");
      (Contains(s.detail, "Function") ==> BucketOf(s) == Some(if m then FunctionMethodsBucket else FunctionsBucket)) &&
      (!Contains(s.detail, "Function") && Contains(s.detail, "Procedure") ==>
        BucketOf(s) == Some(if m then ProcedureMethodsBucket else ProceduresBucket)) &&
      (!Contains(s.detail, "Function") && !Contains(s.detail, "Procedure") ==> BucketOf(s) == None)
    ensures var rn := if Contains(s.name, "::") then Split(s.name, "::")[1] else s.name;
      (Contains(s.detail, "Function") ==> InsertTextOf(s) == DropLast(rn)) &&
      (!Contains(s.detail, "Function") && Contains(s.detail, "Procedure") ==> InsertTextOf(s) == rn + ",") &&
      (!Contains(s.detail, "Function") && !Contains(s.detail, "Procedure") ==> InsertTextOf(s) == rn)
  {
    MethodSplitRule(s.name);
  }

  /** Indexing one symbol keeps the key arrays parallel and in step with the table. */
  lemma AddEntryAligned(ix: Index, uri: Uri, s: Symbol)
    requires KeysAligned(ix)
    ensures KeysAligned(AddEntry(ix, uri, s))
  {
    var key := Key(s);
    if key !in ix.symbols {
      var r := AddEntry(ix, uri, s);
      assert key !in ix.symbolKeys;
      forall i, j | 0 <= i < j < |r.symbolKeys| ensures r.symbolKeys[i] != r.symbolKeys[j] {
        if j == |ix.symbolKeys| {
          assert ix.symbolKeys[i] in ix.symbolKeys;
        }
      }
    }
  }

  /** Pushing a routine's item and its prepared key onto the same bucket keeps the buckets parallel. */
  lemma AddLookupsAligned(ix: Index, s: Symbol)
    requires BucketsAligned(ix.quickLookup, ix.quickSearchLookup) && OrderAligned(ix) && CompletionsKeyed(ix)
    ensures var r := AddLookups(ix, s);
      BucketsAligned(r.quickLookup, r.quickSearchLookup) && OrderAligned(r) && CompletionsKeyed(r)
  {
    var r := AddLookups(ix, s);
    var b := BucketOf(s);
    if b.Some? {
      forall c ensures |r.quickLookup.Get(c)| == |r.quickSearchLookup.Get(c)| &&
        forall i :: 0 <= i < |r.quickLookup.Get(c)| ==>
          r.quickSearchLookup.Get(c)[i] == Prepared(LowerStr(r.quickLookup.Get(c)[i].labelText))
      {
        if c == b.value {
          var n := |ix.quickLookup.Get(c)|;
          assert r.quickLookup.Get(c)[n].labelText == s.name;
        }
      }
    }
    var key := Key(s);
    if key !in ix.routineCompletionLookup {
      assert key !in ix.routineCompletionOrder;
      forall i, j | 0 <= i < j < |r.routineCompletionOrder|
        ensures r.routineCompletionOrder[i] != r.routineCompletionOrder[j]
      {
        if j == |ix.routineCompletionOrder| {
          assert ix.routineCompletionOrder[i] in ix.routineCompletionOrder;
        }
      }
    }
  }

  /** Only routines are entered, so the table and the routine lookup stay free of variables. */
  lemma AddSymbolNoVariables(ix: Index, uri: Uri, s: Symbol)
    requires NoVariables(ix)
    ensures NoVariables(AddSymbol(ix, uri, s))
  {
    if s.kind != Variable {
      var key := Key(s);
      var r := AddSymbol(ix, uri, s);
      forall k, i | k in r.symbols && 0 <= i < |r.symbols[k]| ensures r.symbols[k][i].symbol.kind != Variable {
        if k == key && key in ix.symbols && i < |ix.symbols[key]| {
          assert r.symbols[k][i] == ix.symbols[k][i];
        }
      }
    }
  }

  /** One turn of the indexing loop keeps every invariant; a variable changes nothing at all. */
  lemma AddSymbolValid(ix: Index, uri: Uri, s: Symbol)
    requires Valid(ix)
    ensures Valid(AddSymbol(ix, uri, s))
    ensures s.kind == Variable ==> AddSymbol(ix, uri, s) == ix
  {
    if s.kind != Variable {
      AddEntryAligned(ix, uri, s);
      AddLookupsAligned(AddEntry(ix, uri, s), s);
      AddSymbolNoVariables(ix, uri, s);
    }
  }

  /** The indexing loop keeps every invariant. */
  lemma {:induction false} AddSymbolsValid(ix: Index, uri: Uri, found: seq<Symbol>)
    requires Valid(ix)
    ensures Valid(AddSymbols(ix, uri, found))
  {
    if |found| > 0 {
      AddSymbolsValid(ix, uri, found[..|found| - 1]);
      AddSymbolValid(AddSymbols(ix, uri, found[..|found| - 1]), uri, found[|found| - 1]);
    }
  }

  /** The indexing loop never touches another document's constants. */
  lemma {:induction false} AddSymbolsConstants(ix: Index, uri: Uri, found: seq<Symbol>)
    ensures AddSymbols(ix, uri, found).constantCompletionLookup == ix.constantCompletionLookup
  {
    if |found| > 0 {
      AddSymbolsConstants(ix, uri, found[..|found| - 1]);
    }
  }

  /**
   * Indexing a document keeps every invariant, and the document's constants
   * become exactly the items of its kept variables.
   */
  lemma IndexFoundValid(ix: Index, uri: Uri, found: seq<Symbol>)
    requires Valid(ix)
    ensures Valid(IndexFound(ix, uri, found))
    ensures IndexFound(ix, uri, found).constantCompletionLookup == ix.constantCompletionLookup[uri := ConstantItems(found)]
  {
    AddSymbolsValid(ix, uri, found);
    AddSymbolsConstants(ix, uri, found);
  }

  /** No variable before position `j` has the lower-cased name of the symbol at `j`. */
  ghost predicate FirstOfKey(found: seq<Symbol>, j: nat)
    requires j < |found|
  {
    forall j' :: 0 <= j' < j && found[j'].kind == Variable ==> Key(found[j']) != Key(found[j])
  }

  /** `s` is a variable at a position with no earlier variable of its lower-cased name. */
  ghost predicate FirstOfItsKey(found: seq<Symbol>, s: Symbol)
  {
    exists j :: 0 <= j < |found| && found[j] == s && FirstOfKey(found, j)
  }

  /**
   * The constant filter keeps variables only, at most one per lower-cased
   * name, every variable's name is represented, and the one kept for a name
   * is the first variable with that name.
   */
  lemma KeptConstantsRule(found: seq<Symbol>)
    ensures NoDuplicates(Keys(KeptConstants(found)))
    ensures forall i :: 0 <= i < |KeptConstants(found)| ==> KeptConstants(found)[i].kind == Variable
    ensures forall j :: 0 <= j < |found| && found[j].kind == Variable ==> Key(found[j]) in Keys(KeptConstants(found))
    ensures forall i :: 0 <= i < |KeptConstants(found)| ==> FirstOfItsKey(found, KeptConstants(found)[i])
  {
    KeptDistinct(found);
    KeptCovers(found);
    KeptFirst(found);
  }

  /** The kept variables have distinct lower-cased names. */
  lemma {:induction false} KeptDistinct(found: seq<Symbol>)
    ensures NoDuplicates(Keys(KeptConstants(found)))
    ensures forall i :: 0 <= i < |KeptConstants(found)| ==> KeptConstants(found)[i].kind == Variable
  {
    if |found| > 0 {
      var front := found[..|found| - 1];
      var s := found[|found| - 1];
      var k0 := KeptConstants(front);
      KeptDistinct(front);
      var kept := KeptConstants(found);
      if s.kind == Variable && Key(s) !in Keys(k0) {
        assert Keys(kept) == Keys(k0) + [Key(s)];
        forall i, j | 0 <= i < j < |Keys(kept)| ensures Keys(kept)[i] != Keys(kept)[j] {
          if j == |k0| {
            assert Keys(k0)[i] in Keys(k0);
          }
        }
      }
    }
  }

  /** Every variable's lower-cased name is among the kept ones. */
  lemma {:induction false} KeptCovers(found: seq<Symbol>)
    ensures forall j :: 0 <= j < |found| && found[j].kind == Variable ==> Key(found[j]) in Keys(KeptConstants(found))
  {
    if |found| > 0 {
      var front := found[..|found| - 1];
      var s := found[|found| - 1];
      var k0 := KeptConstants(front);
      KeptCovers(front);
      var kept := KeptConstants(found);
      if s.kind == Variable && Key(s) !in Keys(k0) {
        assert Keys(kept) == Keys(k0) + [Key(s)];
      }
      forall j | 0 <= j < |found| && found[j].kind == Variable ensures Key(found[j]) in Keys(kept) {
        if j < |front| {
          assert found[j] == front[j];
        }
      }
    }
  }

  /** The variable kept for a name is the first variable with that name. */
  lemma {:induction false} KeptFirst(found: seq<Symbol>)
    ensures forall i :: 0 <= i < |KeptConstants(found)| ==> FirstOfItsKey(found, KeptConstants(found)[i])
  {
    if |found| > 0 {
      var front := found[..|found| - 1];
      var s := found[|found| - 1];
      var k0 := KeptConstants(front);
      KeptFirst(front);
      var kept := KeptConstants(found);
      assert forall j :: 0 <= j < |front| ==> found[j] == front[j];
      forall i | 0 <= i < |kept| ensures FirstOfItsKey(found, kept[i]) {
        if s.kind == Variable && Key(s) !in Keys(k0) && i == |k0| {
          KeptCovers(front);
          forall j' | 0 <= j' < |front| && found[j'].kind == Variable ensures Key(found[j']) != Key(s) {
            assert Key(front[j']) in Keys(k0);
          }
          assert found[|found| - 1] == kept[i] && FirstOfKey(found, |found| - 1);
        } else {
          assert kept[i] == k0[i];
          assert FirstOfItsKey(front, k0[i]);
          var j :| 0 <= j < |front| && front[j] == k0[i] && FirstOfKey(front, j);
          assert found[j] == kept[i] && FirstOfKey(found, j);
        }
      }
    } else {
      assert KeptConstants(found) == [];
    }
  }

  /** The constant items: one per lower-cased variable name, labelled with the first such variable's name. */
  lemma ConstantItemsRule(found: seq<Symbol>)
    ensures var items := ConstantItems(found);
      (forall i :: 0 <= i < |items| ==> items[i].kind == Some(VariableItem) && items[i].insertText.None?) &&
      (forall i, j :: 0 <= i < j < |items| ==> LowerStr(items[i].labelText) != LowerStr(items[j].labelText)) &&
      (forall j :: 0 <= j < |found| && found[j].kind == Variable ==>
        exists i :: 0 <= i < |items| && LowerStr(items[i].labelText) == Key(found[j])) &&
      (forall i :: 0 <= i < |items| ==>
        exists j :: 0 <= j < |found| && found[j].kind == Variable && found[j].name == items[i].labelText && FirstOfKey(found, j))
  {
    var kept := KeptConstants(found);
    var items := ConstantItems(found);
    KeptConstantsRule(found);
    forall i, j | 0 <= i < j < |items| ensures LowerStr(items[i].labelText) != LowerStr(items[j].labelText) {
      assert Keys(kept)[i] != Keys(kept)[j];
    }
    forall j | 0 <= j < |found| && found[j].kind == Variable
      ensures exists i :: 0 <= i < |items| && LowerStr(items[i].labelText) == Key(found[j])
    {
      var i :| 0 <= i < |kept| && Keys(kept)[i] == Key(found[j]);
      assert LowerStr(items[i].labelText) == Key(found[j]);
    }
  }

  // ---------------------------------------------------------------------
  // Properties of removal
  // ---------------------------------------------------------------------

  /** The filter keeps exactly the entries of other documents, in their order. */
  lemma {:induction false} WithoutUriRule(entries: seq<Lookup>, uri: Uri)
    ensures var r := WithoutUri(entries, uri);
      |r| <= |entries| &&
      (forall e :: e in r <==> e in entries && e.uri != uri)
  {
    if |entries| > 0 {
      WithoutUriRule(entries[..|entries| - 1], uri);
      assert entries == entries[..|entries| - 1] + [entries[|entries| - 1]];
    }
  }

  /** The filter distributes over concatenation, so it keeps the relative order of the kept entries. */
  lemma {:induction false} WithoutUriAppend(a: seq<Lookup>, b: seq<Lookup>, uri: Uri)
    ensures WithoutUri(a + b, uri) == WithoutUri(a, uri) + WithoutUri(b, uri)
    decreases |b|
  {
    if |b| > 0 {
      var b0 := b[..|b| - 1];
      assert (a + b)[..|a + b| - 1] == a + b0;
      WithoutUriAppend(a, b0, uri);
    } else {
      assert a + b == a;
    }
  }

  /** Dropping a key from a list without repetitions removes that key and keeps every other one. */
  lemma {:induction false} DropRule(s: seq<String>, x: String)
    requires NoDuplicates(s)
    ensures NoDuplicates(Drop(s, x))
    ensures forall y :: y in Drop(s, x) <==> y in s && y != x
  {
    if |s| > 0 {
      DropRule(s[1..], x);
      if s[0] != x {
        assert s[0] !in s[1..];
        var r := Drop(s, x);
        forall i, j | 0 <= i < j < |r| ensures r[i] != r[j] {
          if i == 0 {
            assert r[j] in Drop(s[1..], x);
          } else {
            assert r[i] == Drop(s[1..], x)[i - 1] && r[j] == Drop(s[1..], x)[j - 1];
          }
        }
      }
    }
  }

  /** Splicing one element out of a list without repetitions leaves every other element, once. */
  lemma SpliceOneRule(s: seq<String>, idx: nat)
    requires NoDuplicates(s) && idx < |s|
    ensures Splice(s, idx, 1) == s[..idx] + s[idx + 1..]
    ensures NoDuplicates(Splice(s, idx, 1))
    ensures forall y :: y in Splice(s, idx, 1) <==> y in s && y != s[idx]
  {
    var r := Splice(s, idx, 1);
    assert r == s[..idx] + s[idx + 1..];
    forall i, j | 0 <= i < j < |r| ensures r[i] != r[j] {
      var i' := if i < idx then i else i + 1;
      var j' := if j < idx then j else j + 1;
      assert r[i] == s[i'] && r[j] == s[j'];
    }
    forall y ensures y in r <==> y in s && y != s[idx] {
      if y in s && y != s[idx] {
        var k :| 0 <= k < |s| && s[k] == y;
        if k < idx { assert r[k] == y; } else { assert r[k - 1] == y; }
      }
      if y in r {
        var k :| 0 <= k < |r| && r[k] == y;
        var k' := if k < idx then k else k + 1;
        assert s[k'] == y;
      }
    }
  }

  /**
   * The lookup part of one removal turn: the routine symbol loses the key,
   * the completion lookup loses `key + "("` (only when `key` itself is
   * present), and nothing else changes.
   */
  lemma ClearRoutineRule(ix: Index, key: String)
    ensures var r := ClearRoutine(ix, key);
      r.symbols == ix.symbols && r.symbolKeys == ix.symbolKeys && r.symbolKeysSearch == ix.symbolKeysSearch &&
      r.quickLookup == ix.quickLookup && r.quickSearchLookup == ix.quickSearchLookup &&
      r.constantCompletionLookup == ix.constantCompletionLookup &&
      r.routineSymbolLookup == ix.routineSymbolLookup - {key} &&
      r.routineCompletionLookup == (if key in ix.routineCompletionLookup then ix.routineCompletionLookup - {key + "("}
                                   else ix.routineCompletionLookup)
  {
  }

  /**
   * The table part of one removal turn. A key with one entry leaves the table
   * and both key arrays at the same position, whichever document owns the
   * entry; a key with several keeps exactly the entries of other documents
   * and stays in the arrays; nothing outside the table and the arrays changes.
   */
  lemma RemoveEntriesRule(ix: Index, uri: Uri, key: String)
    requires KeysAligned(ix)
    ensures var r := RemoveEntries(ix, uri, key);
      key !in ix.symbols ==> r == ix
    ensures var r := RemoveEntries(ix, uri, key);
      key in ix.symbols && |ix.symbols[key]| == 1 ==>
        r.symbols == ix.symbols - {key} &&
        exists idx :: 0 <= idx < |ix.symbolKeys| && ix.symbolKeys[idx] == key &&
          r.symbolKeys == ix.symbolKeys[..idx] + ix.symbolKeys[idx + 1..] &&
          r.symbolKeysSearch == ix.symbolKeysSearch[..idx] + ix.symbolKeysSearch[idx + 1..]
    ensures var r := RemoveEntries(ix, uri, key);
      key in ix.symbols && |ix.symbols[key]| != 1 ==>
        r.symbols == ix.symbols[key := WithoutUri(ix.symbols[key], uri)] &&
        r.symbolKeys == ix.symbolKeys && r.symbolKeysSearch == ix.symbolKeysSearch
  {
    if key in ix.symbols && |ix.symbols[key]| == 1 {
      var idx := Find(ix.symbolKeys, key);
      assert Splice(ix.symbolKeys, idx, 1) == ix.symbolKeys[..idx] + ix.symbolKeys[idx + 1..];
      assert Splice(ix.symbolKeysSearch, idx, 1) == ix.symbolKeysSearch[..idx] + ix.symbolKeysSearch[idx + 1..];
    }
  }

  /** The table part of one removal turn changes nothing outside the table and the key arrays. */
  lemma RemoveEntriesFrame(ix: Index, uri: Uri, key: String)
    ensures var r := RemoveEntries(ix, uri, key);
      r == ix.(symbols := r.symbols, symbolKeys := r.symbolKeys, symbolKeysSearch := r.symbolKeysSearch)
  {
  }

  /** Removing the key at `idx` from the table and both arrays keeps them aligned. */
  lemma DropKeyAligned(symbols: map<String, seq<Lookup>>, keys: seq<String>, search: seq<Prepared>, idx: nat)
    requires |keys| == |search| && idx < |keys| && NoDuplicates(keys)
    requires forall i :: 0 <= i < |keys| ==> search[i] == Prepared(keys[i])
    requires forall k :: k in symbols <==> k in keys
    ensures var keys' := keys[..idx] + keys[idx + 1..];
      var search' := search[..idx] + search[idx + 1..];
      |keys'| == |search'| && NoDuplicates(keys') &&
      (forall i :: 0 <= i < |keys'| ==> search'[i] == Prepared(keys'[i])) &&
      (forall k :: k in symbols - {keys[idx]} <==> k in keys')
  {
    var keys' := keys[..idx] + keys[idx + 1..];
    var search' := search[..idx] + search[idx + 1..];
    SpliceOneRule(keys, idx);
    forall i | 0 <= i < |keys'| ensures search'[i] == Prepared(keys'[i]) {
      var i' := if i < idx then i else i + 1;
      assert keys'[i] == keys[i'] && search'[i] == search[i'];
    }
  }

  /** The table part of one removal turn keeps the key arrays parallel and in step with the table. */
  lemma RemoveEntriesAligned(ix: Index, uri: Uri, key: String)
    requires KeysAligned(ix)
    ensures KeysAligned(RemoveEntries(ix, uri, key))
  {
    if key in ix.symbols && |ix.symbols[key]| == 1 {
      RemoveEntriesRule(ix, uri, key);
      var idx := Find(ix.symbolKeys, key);
      DropKeyAligned(ix.symbols, ix.symbolKeys, ix.symbolKeysSearch, idx);
    }
  }

  /** One turn of the removal loop keeps the key arrays parallel and in step with the table. */
  lemma RemoveSymbolAligned(ix: Index, uri: Uri, s: Symbol)
    requires KeysAligned(ix)
    ensures KeysAligned(RemoveSymbol(ix, uri, s))
  {
    ClearRoutineRule(ix, Key(s));
    RemoveEntriesAligned(ClearRoutine(ix, Key(s)), uri, Key(s));
  }

  /** One turn of the removal loop keeps the key order of the completion lookup and keeps variables out. */
  lemma RemoveSymbolOrder(ix: Index, uri: Uri, s: Symbol)
    requires OrderAligned(ix) && NoVariables(ix) && CompletionsKeyed(ix)
    ensures OrderAligned(RemoveSymbol(ix, uri, s)) && NoVariables(RemoveSymbol(ix, uri, s)) &&
      CompletionsKeyed(RemoveSymbol(ix, uri, s))
  {
    var key := Key(s);
    if key in ix.routineCompletionLookup {
      DropRule(ix.routineCompletionOrder, key + "(");
    }
    var ix1 := ClearRoutine(ix, key);
    var r := RemoveSymbol(ix, uri, s);
    if key in ix1.symbols && |ix1.symbols[key]| != 1 {
      WithoutUriRule(ix1.symbols[key], uri);
      forall k, i | k in r.symbols && 0 <= i < |r.symbols[k]| ensures r.symbols[k][i].symbol.kind != Variable {
        if k == key {
          assert r.symbols[k][i] in ix1.symbols[key];
        }
      }
    }
  }

  /** One turn of the removal loop keeps every invariant. */
  lemma RemoveSymbolValid(ix: Index, uri: Uri, s: Symbol)
    requires Valid(ix)
    ensures Valid(RemoveSymbol(ix, uri, s))
  {
    RemoveSymbolAligned(ix, uri, s);
    RemoveSymbolOrder(ix, uri, s);
    ClearRoutineRule(ix, Key(s));
    RemoveEntriesFrame(ClearRoutine(ix, Key(s)), uri, Key(s));
  }

  /** The removal loop keeps every invariant. */
  lemma {:induction false} RemoveSymbolsFromValid(ix: Index, uri: Uri, ss: seq<Symbol>)
    requires Valid(ix)
    ensures Valid(RemoveSymbolsFrom(ix, uri, ss))
  {
    if |ss| > 0 {
      RemoveSymbolsFromValid(ix, uri, ss[..|ss| - 1]);
      RemoveSymbolValid(RemoveSymbolsFrom(ix, uri, ss[..|ss| - 1]), uri, ss[|ss| - 1]);
    }
  }

  /** Removing a document keeps every invariant. */
  lemma RemoveSymbolsValid(ix: Index, uri: Uri, ss: seq<Symbol>)
    requires Valid(ix)
    ensures Valid(RemoveSymbols(ix, uri, ss))
  {
    RemoveSymbolsFromValid(ix.(constantCompletionLookup := ix.constantCompletionLookup - {uri}), uri, ss);
  }

  /** The removal loop leaves the buckets and every document's constants as they were. */
  lemma {:induction false} RemoveSymbolsFromKeeps(ix: Index, uri: Uri, ss: seq<Symbol>)
    ensures RemoveSymbolsFrom(ix, uri, ss).quickLookup == ix.quickLookup
    ensures RemoveSymbolsFrom(ix, uri, ss).quickSearchLookup == ix.quickSearchLookup
    ensures RemoveSymbolsFrom(ix, uri, ss).constantCompletionLookup == ix.constantCompletionLookup
  {
    if |ss| > 0 {
      var ix1 := RemoveSymbolsFrom(ix, uri, ss[..|ss| - 1]);
      RemoveSymbolsFromKeeps(ix, uri, ss[..|ss| - 1]);
      ClearRoutineRule(ix1, Key(ss[|ss| - 1]));
      RemoveEntriesFrame(ClearRoutine(ix1, Key(ss[|ss| - 1])), uri, Key(ss[|ss| - 1]));
    }
  }

  /**
   * Removing a document touches only the keys of its symbols: every other
   * key keeps its entries.
   */
  lemma {:induction false} RemoveSymbolsFromOthers(ix: Index, uri: Uri, ss: seq<Symbol>)
    requires KeysAligned(ix)
    ensures forall k :: k in ix.symbols && k !in Keys(ss) ==>
      k in RemoveSymbolsFrom(ix, uri, ss).symbols && RemoveSymbolsFrom(ix, uri, ss).symbols[k] == ix.symbols[k]
  {
    if |ss| > 0 {
      var front := ss[..|ss| - 1];
      var ix1 := RemoveSymbolsFrom(ix, uri, front);
      RemoveSymbolsFromOthers(ix, uri, front);
      RemoveSymbolsFromValidKeys(ix, uri, front);
      ClearRoutineRule(ix1, Key(ss[|ss| - 1]));
      RemoveEntriesRule(ClearRoutine(ix1, Key(ss[|ss| - 1])), uri, Key(ss[|ss| - 1]));
      assert Key(ss[|ss| - 1]) == Keys(ss)[|ss| - 1];
    }
  }

  /** The removal loop keeps the key arrays aligned (all that the removal step needs). */
  lemma {:induction false} RemoveSymbolsFromValidKeys(ix: Index, uri: Uri, ss: seq<Symbol>)
    requires KeysAligned(ix)
    ensures KeysAligned(RemoveSymbolsFrom(ix, uri, ss))
  {
    if |ss| > 0 {
      RemoveSymbolsFromValidKeys(ix, uri, ss[..|ss| - 1]);
      RemoveSymbolAligned(RemoveSymbolsFrom(ix, uri, ss[..|ss| - 1]), uri, ss[|ss| - 1]);
    }
  }

  /**
   * Because the deleted completion key ends in `(` while the indexed keys
   * are lower-cased symbol names that never do, a completion lookup whose
   * keys end in no `(` comes out of a removal unchanged.
   */
  lemma {:induction false} RemoveKeepsCompletions(ix: Index, uri: Uri, ss: seq<Symbol>)
    requires forall k :: k in ix.routineCompletionLookup ==> !EndsWith(k, "(")
    ensures RemoveSymbolsFrom(ix, uri, ss).routineCompletionLookup == ix.routineCompletionLookup
  {
    if |ss| > 0 {
      var ix1 := RemoveSymbolsFrom(ix, uri, ss[..|ss| - 1]);
      RemoveKeepsCompletions(ix, uri, ss[..|ss| - 1]);
      var key := Key(ss[|ss| - 1]);
      assert EndsWith(key + "(", "(");
      ClearRoutineRule(ix1, key);
      RemoveEntriesFrame(ClearRoutine(ix1, key), uri, key);
    }
  }
}
