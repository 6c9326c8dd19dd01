/**
 * The translation build's `flattenWithPath`: a nested translation object is
 * turned into one flat dictionary whose keys are the dotted paths of its
 * string leaves. The function recurses into object-valued entries, copies
 * each sub-result into its own dictionary with `Object.assign`, and writes
 * leaves directly; later entries overwrite earlier ones under an equal key,
 * and an overwritten key keeps its first position.
 */
module Flatten {
  import opened Text

  /** A translation tree: a string, or an object whose entries come in `Object.keys` order. */
  datatype Value = Leaf(text: String) | Obj(entries: seq<(String, Value)>)

  /** A plain object used as a dictionary: its keys in insertion order, and what each holds. */
  datatype Dict = Dict(keys: seq<String>, values: map<String, String>)
  {
    /** Each key is listed once, and exactly the listed keys hold a value. */
    ghost predicate Valid()
    {
      NoDuplicates(keys) && forall k :: k in values <==> k in keys
    }
  }

  /** The empty object `{}`. */
  const Empty := Dict([], map[])

  /** `d[k] = v`: a new key goes last, an existing key keeps its place. */
  function Put(d: Dict, k: String, v: String): (r: Dict)
    ensures d.Valid() ==> r.Valid()
    ensures r.values == d.values[k := v]
    ensures k in d.values && d.Valid() ==> r.keys == d.keys
  {
    if k in d.values then Dict(d.keys, d.values[k := v]) else Dict(d.keys + [k], d.values[k := v])
  }

  /** The elements of `xs` not yet in `acc`, appended to `acc` at their first occurrence. */
  function DedupOnto(acc: seq<String>, xs: seq<String>): seq<String>
  {
    if |xs| == 0 then acc
    else
      var a := DedupOnto(acc, xs[..|xs| - 1]);
      if xs[|xs| - 1] in a then a else a + [xs[|xs| - 1]]
  }

  /** The entries of a dictionary, in key order. */
  function EntriesOf(e: Dict): (r: seq<(String, String)>)
    requires e.Valid()
    ensures |r| == |e.keys| && forall i :: 0 <= i < |r| ==> r[i] == (e.keys[i], e.values[e.keys[i]])
  {
    seq(|e.keys|, i requires 0 <= i < |e.keys| => (e.keys[i], e.values[e.keys[i]]))
  }

  /** Writing the pairs `ps` into `d` one after the other. */
  function PutAll(d: Dict, ps: seq<(String, String)>): Dict
  {
    if |ps| == 0 then d else Put(PutAll(d, ps[..|ps| - 1]), ps[|ps| - 1].0, ps[|ps| - 1].1)
  }

  /** `Object.assign(d, e)`: the keys of `e` are written into `d` in order. */
  function Assign(d: Dict, e: Dict): (r: Dict)
    requires e.Valid()
    ensures d.Valid() ==> r.Valid() && r.keys == DedupOnto(d.keys, e.keys)
    ensures r.values == d.values + e.values
  {
    PutAllRule(d, EntriesOf(e));
    EntriesMap(e);
    assert KeysOf(EntriesOf(e)) == e.keys;
    PutAll(d, EntriesOf(e))
  }

  /** The key of entry `key` under `path`: `path ? path + "." + key : key`. */
  function Prefixed(path: String, key: String): String
  {
    if path == "" then key else path + "." + key
  }

  /** What `flattenWithPath(obj, path)` holds once the `forEach` has visited the first `n` entries. */
  function FlattenPrefix(obj: Value, path: String, n: nat): (r: Dict)
    requires obj.Obj? && n <= |obj.entries|
    ensures r.Valid()
    decreases obj, n, 1
  {
    if n == 0 then Empty else WriteEntry(FlattenPrefix(obj, path, n - 1), obj, path, n - 1)
  }

  /** One turn of the `forEach`: entry `i` recursed into and assigned, or written directly. */
  function WriteEntry(d: Dict, obj: Value, path: String, i: nat): (r: Dict)
    requires obj.Obj? && i < |obj.entries|
    ensures d.Valid() ==> r.Valid()
    decreases obj, i, 0
  {
    var e := obj.entries[i];
    match e.1
    case Leaf(s) => Put(d, Prefixed(path, e.0), s)
    case Obj(_) => Assign(d, FlattenPrefix(e.1, Prefixed(path, e.0), |e.1.entries|))
  }

  /** What `flattenWithPath(obj, path)` returns. */
  function Flatten(obj: Value, path: String): Dict
    requires obj.Obj?
  {
    FlattenPrefix(obj, path, |obj.entries|)
  }

  /** `flattenWithPath`: a `forEach` over the entries that recurses into objects and writes leaves. */
  method FlattenWithPath(obj: Value, path: String) returns (flat: Dict)
    requires obj.Obj?
    ensures flat == Flatten(obj, path)
    decreases obj
  {
    flat := Empty;
    var i := 0;
    while i < |obj.entries|
      invariant i <= |obj.entries|
      invariant flat == FlattenPrefix(obj, path, i)
    {
      var key := obj.entries[i].0;
      var value := obj.entries[i].1;
      if value.Obj? {
        var sub := FlattenWithPath(value, Prefixed(path, key));
        flat := Assign(flat, sub);
      } else {
        flat := Put(flat, Prefixed(path, key), value.text);
      }
      i := i + 1;
    }
  }

  // ---------------------------------------------------------------------
  // Reference: the leaves in depth-first order, and what writing them does
  // ---------------------------------------------------------------------

  /** The leaves under the first `n` entries of `obj`, depth first, each with its dotted key under `path`. */
  function LeavesPrefix(obj: Value, path: String, n: nat): seq<(String, String)>
    requires obj.Obj? && n <= |obj.entries|
    decreases obj, n, 1
  {
    if n == 0 then [] else LeavesPrefix(obj, path, n - 1) + EntryLeaves(obj, path, n - 1)
  }

  /** The leaves under entry `i` of `obj`: the entry itself when it is a string, else those of its object. */
  function EntryLeaves(obj: Value, path: String, i: nat): seq<(String, String)>
    requires obj.Obj? && i < |obj.entries|
    decreases obj, i, 0
  {
    var e := obj.entries[i];
    match e.1
    case Leaf(s) => [(Prefixed(path, e.0), s)]
    case Obj(_) => LeavesPrefix(e.1, Prefixed(path, e.0), |e.1.entries|)
  }

  /** All the leaves of `obj`, depth first, with their dotted keys under `path`. */
  function Leaves(obj: Value, path: String): seq<(String, String)>
    requires obj.Obj?
  {
    LeavesPrefix(obj, path, |obj.entries|)
  }

  /** The keys of a list of pairs. */
  function KeysOf(ps: seq<(String, String)>): (r: seq<String>)
    ensures |r| == |ps| && forall i :: 0 <= i < |ps| ==> r[i] == ps[i].0
  {
    seq(|ps|, i requires 0 <= i < |ps| => ps[i].0)
  }

  /** The map that writing the pairs in order leaves: each key holds the value of its last pair. */
  function PairsMap(ps: seq<(String, String)>): map<String, String>
  {
    if |ps| == 0 then map[] else PairsMap(ps[..|ps| - 1])[ps[|ps| - 1].0 := ps[|ps| - 1].1]
  }

  /** The value `v` is found by following the keys `ks` down from `v0`. */
  predicate LeafAt(v0: Value, ks: seq<String>, s: String)
    decreases v0
  {
    if |ks| == 0 then v0 == Leaf(s)
    else
      v0.Obj? &&
      exists i :: 0 <= i < |v0.entries| && v0.entries[i].0 == ks[0] && LeafAt(v0.entries[i].1, ks[1..], s)
  }

  /** The key the keys `ks` give under `path`, each step through `Prefixed`. */
  function DottedKey(path: String, ks: seq<String>): String
    decreases |ks|
  {
    if |ks| == 0 then path else DottedKey(Prefixed(path, ks[0]), ks[1..])
  }

  /** Writing pairs: each key takes the value of its last pair, and new keys are appended at their first pair. */
  lemma {:induction false} PutAllRule(d: Dict, ps: seq<(String, String)>)
    ensures PutAll(d, ps).values == d.values + PairsMap(ps)
    ensures d.Valid() ==> PutAll(d, ps).Valid() && PutAll(d, ps).keys == DedupOnto(d.keys, KeysOf(ps))
    decreases |ps|
  {
    if |ps| > 0 {
      var front := ps[..|ps| - 1];
      PutAllRule(d, front);
      assert KeysOf(front) == KeysOf(ps)[..|ps| - 1];
    }
  }

  /** Writing a dictionary's entries in order rebuilds its values. */
  lemma EntriesMap(e: Dict)
    requires e.Valid()
    ensures PairsMap(EntriesOf(e)) == e.values
  {
    var es := EntriesOf(e);
    forall k ensures k in PairsMap(es) <==> k in e.values {
      LastWins(es, k);
      if k in e.values {
        var i :| 0 <= i < |e.keys| && e.keys[i] == k;
        assert es[i].0 == k;
      }
    }
    forall k | k in e.values ensures PairsMap(es)[k] == e.values[k] {
      LastWins(es, k);
    }
  }

  /** Deduplicating keeps `acc` in front, adds exactly the elements of `xs`, and adds no duplicate. */
  lemma {:induction false} DedupFacts(acc: seq<String>, xs: seq<String>)
    ensures var r := DedupOnto(acc, xs);
      (forall k :: k in r <==> k in acc || k in xs) &&
      (NoDuplicates(acc) ==> NoDuplicates(r)) &&
      |acc| <= |r| && r[..|acc|] == acc
    decreases |xs|
  {
    if |xs| > 0 {
      var front := xs[..|xs| - 1];
      DedupFacts(acc, front);
      assert forall k :: k in xs <==> k in front || k == xs[|xs| - 1];
    }
  }

  lemma {:induction false} DedupAppend(acc: seq<String>, xs: seq<String>, ys: seq<String>)
    ensures DedupOnto(acc, xs + ys) == DedupOnto(DedupOnto(acc, xs), ys)
    decreases |ys|
  {
    if |ys| == 0 {
      assert xs + ys == xs;
    } else {
      var front := ys[..|ys| - 1];
      DedupAppend(acc, xs, front);
      assert (xs + ys)[..|xs + ys| - 1] == xs + front;
    }
  }

  /** Deduplicating first changes nothing about what is appended. */
  lemma {:induction false} DedupTwice(acc: seq<String>, xs: seq<String>)
    ensures DedupOnto(acc, DedupOnto([], xs)) == DedupOnto(acc, xs)
    decreases |xs|
  {
    if |xs| > 0 {
      var front := xs[..|xs| - 1];
      var x := xs[|xs| - 1];
      var d := DedupOnto([], front);
      DedupTwice(acc, front);
      DedupFacts([], front);
      DedupFacts(acc, front);
      if x !in d {
        assert (d + [x])[..|d|] == d;
      }
    }
  }

  lemma {:induction false} PairsMapAppend(a: seq<(String, String)>, b: seq<(String, String)>)
    ensures PairsMap(a + b) == PairsMap(a) + PairsMap(b)
    decreases |b|
  {
    if |b| == 0 {
      assert a + b == a;
    } else {
      var front := b[..|b| - 1];
      PairsMapAppend(a, front);
      assert (a + b)[..|a + b| - 1] == a + front;
    }
  }

  /** The dictionary `d` is what writing the pairs `ls` into an empty object gives. */
  ghost predicate Lists(d: Dict, ls: seq<(String, String)>)
  {
    d.Valid() && d.values == PairsMap(ls) && d.keys == DedupOnto([], KeysOf(ls))
  }

  /**
   * Writing the leaves one by one: the flattened dictionary holds, under
   * each dotted key, the value of the LAST leaf with that key, and lists the
   * keys in the order of their FIRST leaf.
   */
  lemma {:induction false} FlattenLeavesPrefix(obj: Value, path: String, n: nat)
    requires obj.Obj? && n <= |obj.entries|
    ensures Lists(FlattenPrefix(obj, path, n), LeavesPrefix(obj, path, n))
    decreases obj, n, 1
  {
    if n > 0 {
      var d := FlattenPrefix(obj, path, n - 1);
      var ls := LeavesPrefix(obj, path, n - 1);
      FlattenLeavesPrefix(obj, path, n - 1);
      WriteEntryLeaves(d, ls, obj, path, n - 1);
      assert FlattenPrefix(obj, path, n) == WriteEntry(d, obj, path, n - 1);
      assert LeavesPrefix(obj, path, n) == ls + EntryLeaves(obj, path, n - 1);
    }
  }

  /** One turn of the `forEach` writes exactly the entry's leaves. */
  lemma {:induction false} WriteEntryLeaves(d: Dict, ls: seq<(String, String)>, obj: Value, path: String, i: nat)
    requires obj.Obj? && i < |obj.entries| && Lists(d, ls)
    ensures Lists(WriteEntry(d, obj, path, i), ls + EntryLeaves(obj, path, i))
    decreases obj, i, 0
  {
    var e := obj.entries[i];
    var k := Prefixed(path, e.0);
    match e.1
    case Leaf(s) =>
      PutStep(d, ls, k, s);
    case Obj(_) =>
      FlattenLeavesPrefix(e.1, k, |e.1.entries|);
      AssignStep(d, ls, FlattenPrefix(e.1, k, |e.1.entries|), LeavesPrefix(e.1, k, |e.1.entries|));
  }

  lemma PutStep(d: Dict, ls: seq<(String, String)>, k: String, s: String)
    requires Lists(d, ls)
    ensures Lists(Put(d, k, s), ls + [(k, s)])
  {
    var ls' := ls + [(k, s)];
    assert ls'[..|ls'| - 1] == ls;
    assert KeysOf(ls')[..|ls|] == KeysOf(ls);
  }

  lemma AssignStep(d: Dict, ls: seq<(String, String)>, e: Dict, ls1: seq<(String, String)>)
    requires Lists(d, ls) && Lists(e, ls1)
    ensures Lists(Assign(d, e), ls + ls1)
  {
    AssignValues(d, ls, e, ls1);
    AssignKeys(d, ls, e, ls1);
  }

  /** The values half of `AssignStep`. */
  lemma AssignValues(d: Dict, ls: seq<(String, String)>, e: Dict, ls1: seq<(String, String)>)
    requires Lists(d, ls) && Lists(e, ls1)
    ensures Assign(d, e).values == PairsMap(ls + ls1)
  {
    PairsMapAppend(ls, ls1);
  }

  /** The key-order half of `AssignStep`. */
  lemma AssignKeys(d: Dict, ls: seq<(String, String)>, e: Dict, ls1: seq<(String, String)>)
    requires Lists(d, ls) && Lists(e, ls1)
    ensures Assign(d, e).keys == DedupOnto([], KeysOf(ls + ls1))
  {
    KeysOfAppend(ls, ls1);
    DedupMerge(KeysOf(ls), KeysOf(ls1));
  }

  lemma KeysOfAppend(ls: seq<(String, String)>, ls1: seq<(String, String)>)
    ensures KeysOf(ls + ls1) == KeysOf(ls) + KeysOf(ls1)
  {
  }

  /** Appending the distinct keys of a second list to those of a first: the distinct keys of both. */
  lemma DedupMerge(k0: seq<String>, k1: seq<String>)
    ensures DedupOnto(DedupOnto([], k0), DedupOnto([], k1)) == DedupOnto([], k0 + k1)
  {
    DedupTwice(DedupOnto([], k0), k1);
    DedupAppend([], k0, k1);
  }

  /** `flattenWithPath` is the depth-first list of leaves written in order into an empty object. */
  lemma FlattenLeaves(obj: Value, path: String)
    requires obj.Obj?
    ensures Flatten(obj, path).values == PairsMap(Leaves(obj, path))
    ensures Flatten(obj, path).keys == DedupOnto([], KeysOf(Leaves(obj, path)))
    ensures Flatten(obj, path).Valid()
  {
    FlattenLeavesPrefix(obj, path, |obj.entries|);
  }

  /** After writing the pairs, a key holds a value iff some pair has it, and the value of the last such pair. */
  lemma {:induction false} LastWins(ps: seq<(String, String)>, k: String)
    ensures k in PairsMap(ps) <==> exists i :: 0 <= i < |ps| && ps[i].0 == k
    ensures k in PairsMap(ps) ==>
      exists j :: 0 <= j < |ps| && ps[j] == (k, PairsMap(ps)[k]) && forall i :: j < i < |ps| ==> ps[i].0 != k
  {
    if |ps| > 0 {
      var front := ps[..|ps| - 1];
      LastWins(front, k);
      if ps[|ps| - 1].0 != k && k in PairsMap(ps) {
        var j :| 0 <= j < |front| && front[j] == (k, PairsMap(front)[k]) && forall i :: j < i < |front| ==> front[i].0 != k;
        assert ps[j] == front[j];
      }
      if k !in PairsMap(ps) {
        assert forall i :: 0 <= i < |front| ==> ps[i] == front[i];
      }
    }
  }

  /** The listing grows: the leaves of the first `i` entries start the leaves of the first `n`. */
  lemma {:induction false} LeavesGrow(obj: Value, path: String, i: nat, n: nat)
    requires obj.Obj? && i <= n <= |obj.entries|
    ensures |LeavesPrefix(obj, path, i)| <= |LeavesPrefix(obj, path, n)|
    ensures LeavesPrefix(obj, path, n)[..|LeavesPrefix(obj, path, i)|] == LeavesPrefix(obj, path, i)
    decreases n
  {
    if i < n {
      LeavesGrow(obj, path, i, n - 1);
    }
  }

  /** Every leaf, found by a non-empty key path, is listed under the dotted key of that path. */
  lemma {:induction false} LeafListed(obj: Value, path: String, ks: seq<String>, s: String)
    requires obj.Obj? && |ks| > 0 && LeafAt(obj, ks, s)
    ensures (DottedKey(path, ks), s) in Leaves(obj, path)
    decreases obj
  {
    var i :| 0 <= i < |obj.entries| && obj.entries[i].0 == ks[0] && LeafAt(obj.entries[i].1, ks[1..], s);
    var e := obj.entries[i];
    var k := Prefixed(path, e.0);
    var before := LeavesPrefix(obj, path, i);
    var own := LeavesPrefix(obj, path, i + 1);
    assert own == before + EntryLeaves(obj, path, i);
    assert DottedKey(path, ks) == DottedKey(k, ks[1..]);
    var t: nat;
    if |ks| == 1 {
      assert e.1 == Leaf(s);
      assert DottedKey(k, ks[1..]) == k;
      assert EntryLeaves(obj, path, i) == [(k, s)];
      t := |before|;
    } else {
      LeafListed(e.1, k, ks[1..], s);
      var sub := Leaves(e.1, k);
      assert EntryLeaves(obj, path, i) == sub;
      var j :| 0 <= j < |sub| && sub[j] == (DottedKey(k, ks[1..]), s);
      t := |before| + j;
    }
    assert t < |own| && own[t] == (DottedKey(path, ks), s);
    LeavesGrow(obj, path, i + 1, |obj.entries|);
    assert Leaves(obj, path)[t] == own[t];
  }

  /** Every listed pair is a leaf of `obj`, under the dotted key of a non-empty key path to it. */
  lemma {:induction false} ListedLeaf(obj: Value, path: String, n: nat, p: (String, String))
    requires obj.Obj? && n <= |obj.entries| && p in LeavesPrefix(obj, path, n)
    ensures exists ks :: |ks| > 0 && LeafAt(obj, ks, p.1) && DottedKey(path, ks) == p.0
    decreases obj, n
  {
    var e := obj.entries[n - 1];
    var k := Prefixed(path, e.0);
    var front := LeavesPrefix(obj, path, n - 1);
    if p in front {
      ListedLeaf(obj, path, n - 1, p);
    } else {
      match e.1
      case Leaf(s) =>
        assert p == (k, s);
        assert LeafAt(e.1, [], s);
        assert LeafAt(obj, [e.0], s);
        assert DottedKey(path, [e.0]) == k;
      case Obj(_) =>
        ListedLeaf(e.1, k, |e.1.entries|, p);
        var ks :| |ks| > 0 && LeafAt(e.1, ks, p.1) && DottedKey(k, ks) == p.0;
        var ks' := [e.0] + ks;
        assert ks'[1..] == ks;
        assert LeafAt(obj, ks', p.1);
        assert DottedKey(path, ks') == p.0;
    }
  }

  /** Each string leaf reached by keys k1 … kn appears under the key `k1.….kn`. */
  lemma LeafAppears(obj: Value, ks: seq<String>, s: String)
    requires obj.Obj? && |ks| > 0 && LeafAt(obj, ks, s)
    ensures DottedKey("", ks) in Flatten(obj, "").values
    ensures DottedKey("", ks) in Flatten(obj, "").keys
  {
    FlattenLeaves(obj, "");
    LeafListed(obj, "", ks, s);
    var ls := Leaves(obj, "");
    var j :| 0 <= j < |ls| && ls[j] == (DottedKey("", ks), s);
    LastWins(ls, DottedKey("", ks));
  }

  /** Only leaves appear: each key holds the string of some leaf whose key path dots to that key. */
  lemma OnlyLeaves(obj: Value, k: String)
    requires obj.Obj? && k in Flatten(obj, "").values
    ensures exists ks :: |ks| > 0 && LeafAt(obj, ks, Flatten(obj, "").values[k]) && DottedKey("", ks) == k
  {
    FlattenLeaves(obj, "");
    var ls := Leaves(obj, "");
    LastWins(ls, k);
    var j :| 0 <= j < |ls| && ls[j] == (k, PairsMap(ls)[k]) && forall i :: j < i < |ls| ==> ls[i].0 != k;
    ListedLeaf(obj, "", |obj.entries|, ls[j]);
  }

  /** With no key starting with `.`, no flattened key starts with `.`: the top level has no prefix. */
  lemma {:induction false} NoLeadingDot(path: String, ks: seq<String>)
    requires path == "" || path[0] != '.'
    requires forall i :: 0 <= i < |ks| ==> ks[i] == "" || ks[i][0] != '.'
    ensures var r := DottedKey(path, ks); r == "" || r[0] != '.'
    decreases |ks|
  {
    if |ks| > 0 {
      NoLeadingDot(Prefixed(path, ks[0]), ks[1..]);
    }
  }
}
