/**
 * `IDL`, the object the language server's handlers call: it owns the
 * built-in routine helper, the workspace symbol index and the problem
 * detector, and turns their answers into outline, hover and completion
 * replies. The outline and the hover reply are pure decisions over what the
 * collaborators return; marking a document under its workspace folder
 * changes the folder dictionary in place.
 */
module Idl {
  import opened Text
  import opened Lsp
  import opened SymbolIndex
  import opened SymbolQueries
  import RoutineTable
  import RoutineHelper
  import FileHelper
  import SymbolManager
  import SymbolExtractor
  import DocumentSymbolManager
  import ProblemDetector

  // ---------------------------------------------------------------------
  // Document outline
  // ---------------------------------------------------------------------

  /** An outline entry: a `DocumentSymbol` named by the symbol's display name. */
  datatype OutlineSymbol = OutlineSymbol(name: String, detail: String, kind: SymbolKind, range: Range, selectionRange: Range)

  /** The entry a symbol becomes: the display name as its name, the rest copied. */
  function Outlined(s: Symbol): OutlineSymbol
  {
    OutlineSymbol(s.displayName, s.detail, s.kind, s.range, s.selectionRange)
  }

  /** `getDocumentOutline` from the document's symbols on: variables are dropped, every other symbol renamed. */
  function Outline(ss: seq<Symbol>): seq<OutlineSymbol>
  {
    if |ss| == 0 then []
    else
      var last := ss[|ss| - 1];
      Outline(ss[..|ss| - 1]) + (if last.kind == Variable then [] else [Outlined(last)])
  }

  // ---------------------------------------------------------------------
  // Hover
  // ---------------------------------------------------------------------

  /** A hover reply; `contents` is `undefined` when the entry shown has no documentation. */
  datatype Hover = Hover(contents: Option<String>)

  /** The empty reply, `{ contents: '' }`. */
  const NoHover := Hover(Some(""))

  /**
   * `getHoverHelp` from the selected word `query` and the helper's optimized
   * answer `res` on: empty contents for an empty word, for no entries and
   * for a first entry whose label differs from the searched name up to case;
   * otherwise the first entry's documentation. `None` where the helper
   * answered `undefined` and reading its length throws.
   */
  function HoverOf(query: SelectedWord, res: Option<seq<CompletionItem>>): Option<Hover>
  {
    if query.name == "" then Some(NoHover)
    else if res.None? then None
    else if |res.value| == 0 then Some(NoHover)
    else if LowerStr(res.value[0].labelText) == LowerStr(query.searchName) then Some(Hover(res.value[0].documentation))
    else Some(NoHover)
  }

  // ---------------------------------------------------------------------
  // Completion
  // ---------------------------------------------------------------------

  /**
   * `getCompletionItems` from the helper's answers and the index's items
   * `symMatches` on: a method query takes the optimized answer `optimized`
   * and falls back to the whole list `docs` when it is empty; any other
   * query takes `docs`; the index's items follow. `None` where the
   * optimized answer is `undefined` and reading its length throws.
   */
  function CompletionItemsOf(isMethod: bool, optimized: Option<seq<CompletionItem>>, docs: seq<CompletionItem>,
                             symMatches: seq<CompletionItem>): Option<seq<CompletionItem>>
  {
    var docsMatches :=
      if !isMethod then Some(docs)
      else if optimized.None? then None
      else if |optimized.value| == 0 then Some(docs)
      else optimized;
    if docsMatches.None? then None
    else if |symMatches| > 0 then Some(docsMatches.value + symMatches)
    else docsMatches
  }

  // ---------------------------------------------------------------------
  // Workspace folders
  // ---------------------------------------------------------------------

  /** The position of the first folder in `folders[i..]` that `uri` contains. */
  function FirstFolderFrom(folders: seq<String>, uri: Uri, i: nat): (r: Option<nat>)
    requires i <= |folders|
    ensures r.Some? ==> (i <= r.value < |folders| && Contains(uri, folders[r.value]) &&
      forall j :: i <= j < r.value ==> !Contains(uri, folders[j]))
    ensures r.None? ==> forall j :: i <= j < |folders| ==> !Contains(uri, folders[j])
    decreases |folders| - i
  {
    if i == |folders| then None
    else if Contains(uri, folders[i]) then Some(i)
    else FirstFolderFrom(folders, uri, i + 1)
  }

  /** The folders in `Object.keys` order and the documents known under each. */
  ghost predicate FoldersAligned(folders: seq<String>, files: map<String, map<Uri, bool>>)
  {
    NoDuplicates(folders) && forall f :: f in files <==> f in folders
  }

  /** The marking loop of `addDocumentSymbols`: the first folder whose name the uri contains gets the uri, unless already marked. */
  function Marked(files: map<String, map<Uri, bool>>, folders: seq<String>, uri: Uri): map<String, map<Uri, bool>>
    requires forall f :: f in folders ==> f in files
  {
    var first := FirstFolderFrom(folders, uri, 0);
    if first.None? then files
    else
      var folder := folders[first.value];
      if uri in files[folder] && files[folder][uri] then files
      else files[folder := files[folder][uri := true]]
  }

  // ---------------------------------------------------------------------
  // The server object
  // ---------------------------------------------------------------------

  class IDL {
    const helper: RoutineHelper.IDLRoutineHelper
    const manager: SymbolManager.IDLSymbolManager
    const problems: ProblemDetector.IDLProblemDetector
    /** `manager.workspaceFiles`: for each workspace folder, the documents found under it. */
    var workspaceFiles: map<String, map<Uri, bool>>
    /** The keys of `workspaceFiles` in insertion order. */
    var workspaceFolders: seq<String>

    ghost predicate Valid()
      reads this
    {
      FoldersAligned(workspaceFolders, workspaceFiles)
    }

    /**
     * The collaborators, built from the routine list `raw` and its function
     * and procedure flags: the helper parses the list, the index and the
     * detector start empty. The detector is given an index of its own, of
     * the older kind it is written against.
     */
    constructor(raw: seq<RoutineTable.RawDoc>, fns: map<nat, bool>, pros: map<nat, bool>)
      ensures Valid() && workspaceFiles == map[] && workspaceFolders == []
      ensures helper.Valid() && helper.docs == RoutineTable.ParsedDocs(raw, fns, pros, |raw|)
      ensures helper.Tables() == RoutineTable.TablesAfter(raw, fns, pros, |raw|)
      ensures helper.routineKeysSearch == RoutineTable.SearchKeys(raw, |raw|)
      ensures manager.Valid() && manager.State() == EmptyIndex && manager.cache == map[]
      ensures problems.Valid() && problems.manager.Valid() && problems.State() == ProblemDetector.NoProblems
      ensures problems.manager.State() == EmptyIndex
    {
      helper := new RoutineHelper.IDLRoutineHelper(raw, fns, pros);
      var files := new FileHelper.FileHelper();
      manager := new SymbolManager.IDLSymbolManager(files);
      var older := new DocumentSymbolManager.IDLDocumentSymbolManager();
      problems := new ProblemDetector.IDLProblemDetector(older);
      workspaceFiles := map[];
      workspaceFolders := [];
    }

    /** `getDocumentOutline(params)`: the document's symbols from the index, outlined; `source` is the document's text. */
    method GetDocumentOutline(uri: Uri, source: String) returns (outline: seq<OutlineSymbol>)
      requires manager.Valid()
      modifies manager, manager.files
      ensures manager.Valid() && uri in manager.cache
      ensures outline == Outline(manager.cache[uri])
      ensures old(uri in manager.cache) ==> manager.State() == old(manager.State()) && manager.cache == old(manager.cache)
      ensures !old(uri in manager.cache) ==>
        manager.cache[uri] == SymbolExtractor.DocumentSymbols(SymbolManager.FileText(old(manager.files.regexString), uri, source)) &&
        manager.State() == IndexFound(old(manager.State()), uri, manager.cache[uri]) &&
        manager.cache == old(manager.cache)[uri := manager.cache[uri]]
    {
      var syms := manager.DocumentSymbols(uri, source);
      outline := Outline(syms);
    }

    /**
     * `getHoverHelp(position)` for the word `query` the index selects under
     * the cursor; `hits` are the matcher's hits in the helper's keys.
     */
    method GetHoverHelp(query: SelectedWord, hits: seq<nat>) returns (h: Option<Hover>)
      requires helper.Valid() && ValidHits(hits, |helper.routineKeysSearch|)
      ensures h == HoverOf(query, RoutineTable.Found(helper.docs, helper.Tables(), helper.routineKeysSearch, hits))
    {
      if query.name == "" {
        return Some(NoHover);
      }
      var res := helper.Completion(true, hits);
      if res.None? {
        return None;
      }
      var items := res.value;
      if |items| == 0 {
        h := Some(NoHover);
      } else if LowerStr(items[0].labelText) == LowerStr(query.searchName) {
        h := Some(Hover(items[0].documentation));
      } else {
        h := Some(NoHover);
      }
    }

    /**
     * `getCompletionItems(position)` for the word `query` under the cursor
     * in document `uri`; `hits` are the matcher's hits in the helper's keys.
     * The index is asked without optimization, its default.
     */
    method GetCompletionItems(query: SelectedWord, uri: Uri, hits: seq<nat>) returns (r: Option<seq<CompletionItem>>)
      requires helper.Valid() && (query.isMethod ==> ValidHits(hits, |helper.routineKeysSearch|))
      ensures r == CompletionItemsOf(query.isMethod,
        (if query.isMethod then RoutineTable.Found(helper.docs, helper.Tables(), helper.routineKeysSearch, hits) else None),
        helper.docs,
        ConstantsOf(manager.State(), uri) + SymbolQueries.SearchRoutines(manager.State(), query, false, []))
    {
      var docsMatches: seq<CompletionItem>;
      if query.isMethod {
        var found := helper.Completion(true, hits);
        if found.None? {
          return None;
        }
        docsMatches := found.value;
        if |docsMatches| == 0 {
          var all := helper.Completion(false, []);
          docsMatches := all.value;
        }
      } else {
        var all := helper.Completion(false, []);
        docsMatches := all.value;
      }
      var symMatches := manager.Completion(query, uri, false, []);
      if |symMatches| > 0 {
        docsMatches := docsMatches + symMatches;
      }
      r := Some(docsMatches);
    }

    /**
     * The `sendProblems` dispatch: with the flag, `detectAndSendProblems`,
     * whose sends are returned; without it, `detectProblems`, which the
     * detector does not define, so the call throws (`None`) and nothing
     * changes.
     */
    method DetectProblems(sendProblems: bool) returns (sends: Option<seq<ProblemDetector.Publish>>)
      requires problems.manager.Valid() && problems.Valid()
      modifies problems
      ensures problems.Valid()
      ensures sendProblems ==>
        problems.State() == ProblemDetector.Resolved(problems.manager.State()) &&
        sends == Some(ProblemDetector.Sends(old(problems.State()), problems.State()))
      ensures !sendProblems ==> sends.None? && problems.State() == old(problems.State())
    {
      if sendProblems {
        var sent := problems.DetectAndSendProblems();
        sends := Some(sent);
      } else {
        sends := None;
      }
    }

    /**
     * `addDocumentSymbols(uri)`: the document is marked under the first
     * workspace folder whose name it contains, if not marked already, and
     * then indexed; `source` is the document's text.
     */
    method AddDocumentSymbols(uri: Uri, source: String)
      requires Valid() && manager.Valid()
      modifies this, manager, manager.files
      ensures Valid() && manager.Valid() && uri in manager.cache
      ensures workspaceFolders == old(workspaceFolders)
      ensures workspaceFiles == Marked(old(workspaceFiles), old(workspaceFolders), uri)
      ensures old(uri in manager.cache) ==> manager.State() == old(manager.State()) && manager.cache == old(manager.cache)
      ensures !old(uri in manager.cache) ==>
        manager.State() == IndexFound(old(manager.State()), uri, manager.cache[uri]) &&
        manager.cache == old(manager.cache)[uri := manager.cache[uri]]
    {
      MarkFolder(uri);
      var syms := manager.DocumentSymbols(uri, source);
    }

    /** The marking loop of `addDocumentSymbols`. */
    method MarkFolder(uri: Uri)
      requires Valid()
      modifies this
      ensures Valid() && workspaceFolders == old(workspaceFolders)
      ensures workspaceFiles == Marked(old(workspaceFiles), old(workspaceFolders), uri)
    {
      var folders := workspaceFolders;
      for i := 0 to |folders|
        invariant workspaceFiles == old(workspaceFiles) && workspaceFolders == folders
        invariant FirstFolderFrom(folders, uri, 0) == FirstFolderFrom(folders, uri, i)
      {
        var folder := folders[i];
        if Contains(uri, folder) {
          assert folder in workspaceFiles;
          if !(uri in workspaceFiles[folder] && workspaceFiles[folder][uri]) {
            workspaceFiles := workspaceFiles[folder := workspaceFiles[folder][uri := true]];
          }
          return;
        }
      }
    }
  }

  // ---------------------------------------------------------------------
  // Properties
  // ---------------------------------------------------------------------

  /** The outline of two lists of symbols is the outline of each in turn: order is kept. */
  lemma {:induction false} OutlineAppend(a: seq<Symbol>, b: seq<Symbol>)
    ensures Outline(a + b) == Outline(a) + Outline(b)
    decreases |b|
  {
    if |b| == 0 {
      assert a + b == a;
    } else {
      assert (a + b)[..|a + b| - 1] == a + b[..|b| - 1];
      OutlineAppend(a, b[..|b| - 1]);
    }
  }

  /** The outline lists exactly the renamed non-variable symbols, and never more entries than symbols. */
  lemma {:induction false} OutlineHas(ss: seq<Symbol>)
    ensures |Outline(ss)| <= |ss|
    ensures forall o :: o in Outline(ss) <==> exists s :: s in ss && s.kind != Variable && o == Outlined(s)
  {
    if |ss| > 0 {
      var init := ss[..|ss| - 1];
      var last := ss[|ss| - 1];
      OutlineHas(init);
      assert ss == init + [last];
      forall o | o in Outline(ss) ensures exists s :: s in ss && s.kind != Variable && o == Outlined(s) {
        if o in Outline(init) {
          var s :| s in init && s.kind != Variable && o == Outlined(s);
          assert s in ss;
        } else {
          assert last in ss;
        }
      }
      forall o | exists s :: s in ss && s.kind != Variable && o == Outlined(s) ensures o in Outline(ss) {
        var s :| s in ss && s.kind != Variable && o == Outlined(s);
        if s != last {
          assert s in init;
        }
      }
    }
  }

  /** A document holding only variables has an empty outline. */
  lemma {:induction false} OutlineOfVariables(ss: seq<Symbol>)
    requires forall s :: s in ss ==> s.kind == Variable
    ensures Outline(ss) == []
  {
    if |ss| > 0 {
      assert ss[|ss| - 1] in ss;
      OutlineOfVariables(ss[..|ss| - 1]);
    }
  }

  /**
   * The outline of `addition.pro`: its one procedure `addition`, kind 12,
   * selected at line 16, characters 4 to 12, with its variables dropped.
   */
  lemma AdditionOutline(procedure: Symbol, variables: seq<Symbol>)
    requires procedure.displayName == "addition" && procedure.kind == Function
    requires procedure.range == LineRange(16, 4, 12)
    requires forall v :: v in variables ==> v.kind == Variable
    ensures Outline([procedure] + variables) ==
      [OutlineSymbol("addition", procedure.detail, Function, LineRange(16, 4, 12), procedure.selectionRange)]
    ensures Outline([procedure] + variables)[0].kind.Code() == 12
  {
    OutlineAppend([procedure], variables);
    OutlineOfVariables(variables);
    assert [procedure][..0] == [];
  }

  /**
   * Hover over the built-in routines never throws: the parsed tables hold
   * every key the matcher can hit. A non-empty word shows the documentation
   * of the first hit's entry exactly when that entry's key is the searched
   * name up to case, and empty contents otherwise.
   */
  lemma HoverOnBuiltIns(raw: seq<RoutineTable.RawDoc>, fns: map<nat, bool>, pros: map<nat, bool>, query: SelectedWord, hits: seq<nat>)
    requires ValidHits(hits, |raw|)
    ensures RoutineTable.TablesAfter(raw, fns, pros, |raw|).Within(|raw|)
    ensures var res := RoutineTable.Found(RoutineTable.ParsedDocs(raw, fns, pros, |raw|),
                                          RoutineTable.TablesAfter(raw, fns, pros, |raw|), RoutineTable.SearchKeys(raw, |raw|), hits);
      res.Some? && HoverOf(query, res).Some? &&
      (query.name == "" || |hits| == 0 || RoutineTable.Key(raw, hits[0]) != LowerStr(query.searchName) ==> HoverOf(query, res) == Some(NoHover)) &&
      (query.name != "" && |hits| > 0 && RoutineTable.Key(raw, hits[0]) == LowerStr(query.searchName) ==>
        HoverOf(query, res) == Some(Hover(res.value[0].documentation)))
  {
    RoutineTable.ParsedFound(raw, fns, pros, hits);
  }

  /**
   * Completion over the built-in routines never throws. A method query with
   * hits gets one entry per hit, in order, each keyed by its hit's label;
   * a method query without hits, and every other query, gets the whole
   * documentation list; the index's items `sym` follow in every case.
   */
  lemma CompletionOnBuiltIns(raw: seq<RoutineTable.RawDoc>, fns: map<nat, bool>, pros: map<nat, bool>, isMethod: bool,
                             hits: seq<nat>, sym: seq<CompletionItem>)
    requires ValidHits(hits, |raw|)
    ensures RoutineTable.TablesAfter(raw, fns, pros, |raw|).Within(|raw|)
    ensures var docs := RoutineTable.ParsedDocs(raw, fns, pros, |raw|);
      var res := RoutineTable.Found(docs, RoutineTable.TablesAfter(raw, fns, pros, |raw|), RoutineTable.SearchKeys(raw, |raw|), hits);
      var r := CompletionItemsOf(isMethod, if isMethod then res else None, docs, sym);
      r.Some? &&
      (isMethod && |hits| > 0 ==> (r.value == res.value + sym && |res.value| == |hits| &&
        forall i :: 0 <= i < |hits| ==> LowerStr(r.value[i].labelText) == RoutineTable.Key(raw, hits[i]))) &&
      (!isMethod || |hits| == 0 ==> r.value == docs + sym)
  {
    RoutineTable.ParsedFound(raw, fns, pros, hits);
    var docs := RoutineTable.ParsedDocs(raw, fns, pros, |raw|);
    var res := RoutineTable.Found(docs, RoutineTable.TablesAfter(raw, fns, pros, |raw|), RoutineTable.SearchKeys(raw, |raw|), hits);
    assert |sym| == 0 ==> res.value + sym == res.value && docs + sym == docs;
    if isMethod && |hits| > 0 {
      forall i | 0 <= i < |hits| ensures (res.value + sym)[i] == res.value[i] { }
    }
  }

  /**
   * Marking: when some folder's name occurs in the uri, the first such
   * folder has the uri marked and nothing else changes; otherwise nothing
   * changes. Marking twice is marking once.
   */
  lemma MarkedRule(files: map<String, map<Uri, bool>>, folders: seq<String>, uri: Uri)
    requires FoldersAligned(folders, files)
    ensures FoldersAligned(folders, Marked(files, folders, uri))
    ensures (forall i :: 0 <= i < |folders| ==> !Contains(uri, folders[i])) ==> Marked(files, folders, uri) == files
    ensures forall i :: 0 <= i < |folders| && Contains(uri, folders[i]) && (forall j :: 0 <= j < i ==> !Contains(uri, folders[j])) ==>
      var f := folders[i];
      f in Marked(files, folders, uri) && uri in Marked(files, folders, uri)[f] && Marked(files, folders, uri)[f][uri] &&
      (forall g :: g in files && g != f ==> Marked(files, folders, uri)[g] == files[g]) &&
      (forall v :: v in files[f] && v != uri ==> v in Marked(files, folders, uri)[f] && Marked(files, folders, uri)[f][v] == files[f][v])
    ensures Marked(Marked(files, folders, uri), folders, uri) == Marked(files, folders, uri)
  {
    var first := FirstFolderFrom(folders, uri, 0);
    forall i | 0 <= i < |folders| && Contains(uri, folders[i]) && (forall j :: 0 <= j < i ==> !Contains(uri, folders[j]))
      ensures first == Some(i)
    {
    }
  }
}
