/** The deep-object path trie of api/openapi.gen.go: nested maps that are filled
    in place through shared references, in the order a map iteration happens to
    deliver the paths. */
module PathTrie {
  import opened Text

  type Path = seq<string>

  /** A trie as a value: what a `fieldOrValue` stands for. */
  datatype Tree = Leaf(value: string) | Branch(fields: map<string, Tree>)

  // --------------------------------------------------------------- pure tries

  /** A walk along `path` ends at a branch before it meets a leaf, so that
      `appendPathValue` never writes into a leaf's nil map. */
  predicate Admits(t: Tree, path: Path)
    decreases |path|
  {
    t.Branch? && (|path| <= 1 || path[0] !in t.fields || Admits(t.fields[path[0]], path[1..]))
  }

  function Insert(t: Tree, path: Path, value: string): (r: Tree)
    requires path != [] && Admits(t, path)
    ensures r.Branch?
    decreases |path|
  {
    if |path| == 1 then Branch(t.fields[path[0] := Leaf(value)])
    else
      var child := if path[0] in t.fields then t.fields[path[0]] else Branch(map[]);
      Branch(t.fields[path[0] := Insert(child, path[1..], value)])
  }

  /** The subtree at the end of `path`, if the trie has one. */
  function At(t: Tree, path: Path): Option<Tree>
    decreases |path|
  {
    if path == [] then Some(t)
    else if t.Branch? && path[0] in t.fields then At(t.fields[path[0]], path[1..])
    else None
  }

  /** The value stored under `path`, if `path` ends at a leaf. */
  function Lookup(t: Tree, path: Path): Option<string> {
    match At(t, path)
    case Some(Leaf(value)) => Some(value)
    case _ => None
  }

  /** Neither path is a prefix of the other; in particular they differ. */
  predicate Apart(p: Path, q: Path) { !(p <= q) && !(q <= p) }

  lemma ApartTails(p: Path, q: Path)
    requires Apart(p, q) && p != [] && q != [] && p[0] == q[0]
    ensures Apart(p[1..], q[1..]) && |p| > 1 && |q| > 1
  {
    assert p == [p[0]] + p[1..] && q == [q[0]] + q[1..];
  }

  /** After an insertion the same paths are admitted, but for those that continue
      the inserted one. */
  lemma {:induction false} InsertAdmitsIff(t: Tree, p: Path, value: string, q: Path)
    requires p != [] && Admits(t, p)
    ensures Admits(Insert(t, p, value), q) <==> Admits(t, q) && !(p < q)
    decreases |p|
  {
    if |q| > 1 && p[0] == q[0] {
      assert p < q <==> p[1..] < q[1..];
      if |p| > 1 {
        var child := if p[0] in t.fields then t.fields[p[0]] else Branch(map[]);
        InsertAdmitsIff(child, p[1..], value, q[1..]);
      }
    }
  }

  lemma {:induction false} LookupInserted(t: Tree, p: Path, value: string)
    requires p != [] && Admits(t, p)
    ensures Lookup(Insert(t, p, value), p) == Some(value)
    decreases |p|
  {
    if |p| > 1 {
      var child := if p[0] in t.fields then t.fields[p[0]] else Branch(map[]);
      LookupInserted(child, p[1..], value);
    } else {
      assert At(Leaf(value), p[1..]) == Some(Leaf(value));
    }
  }

  /** Inserting under `p` changes no lookup apart from `p`. */
  lemma {:induction false} LookupApart(t: Tree, p: Path, value: string, q: Path)
    requires p != [] && Admits(t, p) && Apart(p, q)
    ensures Lookup(Insert(t, p, value), q) == Lookup(t, q)
    decreases |p|
  {
    if p[0] == q[0] {
      ApartTails(p, q);
      var child := if p[0] in t.fields then t.fields[p[0]] else Branch(map[]);
      LookupApart(child, p[1..], value, q[1..]);
    }
  }

  /** A path that is a proper prefix of an inserted path ends at a branch, and
      one that continues it ends nowhere. */
  lemma {:induction false} LookupRelated(t: Tree, p: Path, value: string, q: Path)
    requires p != [] && Admits(t, p) && !Apart(p, q) && p != q
    ensures Lookup(Insert(t, p, value), q) == None
    decreases |p|
  {
    if q != [] {
      assert p[0] == q[0];
      assert p == [p[0]] + p[1..] && q == [q[0]] + q[1..];
      if |p| > 1 {
        assert !Apart(p[1..], q[1..]);
        var child := if p[0] in t.fields then t.fields[p[0]] else Branch(map[]);
        LookupRelated(child, p[1..], value, q[1..]);
      } else {
        assert At(Leaf(value), q[1..]) == None;
      }
    }
  }

  lemma InsertTwice(t: Tree, child: Tree, p: Path, v: string, q: Path, w: string)
    requires |p| > 1 && |q| > 1 && p[0] == q[0] && Admits(t, p)
    requires child == if p[0] in t.fields then t.fields[p[0]] else Branch(map[])
    requires Admits(child, p[1..]) && Admits(Insert(child, p[1..], v), q[1..])
    ensures Insert(Insert(t, p, v), q, w) == Branch(t.fields[p[0] := Insert(Insert(child, p[1..], v), q[1..], w)])
  {
    var r := Insert(child, p[1..], v);
    assert Insert(t, p, v) == Branch(t.fields[p[0] := r]);
    var s := Insert(r, q[1..], w);
    assert t.fields[p[0] := r][p[0] := s] == t.fields[p[0] := s];
  }

  lemma InsertsBeside(t: Tree, p: Path, v: string, q: Path, w: string)
    requires p != [] && q != [] && p[0] != q[0] && Admits(t, p) && Admits(t, q)
    requires Admits(Insert(t, p, v), q) && Admits(Insert(t, q, w), p)
    ensures Insert(Insert(t, p, v), q, w) == Insert(Insert(t, q, w), p, v)
  {
    var x, y := Insert(t, p, v).fields[p[0]], Insert(t, q, w).fields[q[0]];
    assert Insert(Insert(t, p, v), q, w) == Branch(t.fields[p[0] := x][q[0] := y]);
    assert Insert(Insert(t, q, w), p, v) == Branch(t.fields[q[0] := y][p[0] := x]);
    assert t.fields[p[0] := x][q[0] := y] == t.fields[q[0] := y][p[0] := x];
  }

  /** Two insertions commute. */
  lemma {:induction false} InsertsCommute(t: Tree, p: Path, v: string, q: Path, w: string)
    requires p != [] && q != [] && Admits(t, p) && Admits(t, q) && Apart(p, q)
    ensures Admits(Insert(t, p, v), q) && Admits(Insert(t, q, w), p)
    ensures Insert(Insert(t, p, v), q, w) == Insert(Insert(t, q, w), p, v)
    decreases |p|
  {
    InsertAdmitsIff(t, p, v, q);
    InsertAdmitsIff(t, q, w, p);
    if p[0] == q[0] {
      ApartTails(p, q);
      var child := if p[0] in t.fields then t.fields[p[0]] else Branch(map[]);
      InsertsCommute(child, p[1..], v, q[1..], w);
      InsertTwice(t, child, p, v, q, w);
      InsertTwice(t, child, q, w, p, v);
    } else {
      InsertsBeside(t, p, v, q, w);
    }
  }

  // ------------------------------------------------------------ whole inputs

  datatype Entry = Entry(path: Path, value: string)

  /** One insertion; None once an empty path, or a path that runs into a leaf, has
      stopped the program. */
  function Append(r: Option<Tree>, e: Entry): Option<Tree> {
    if r.Some? && e.path != [] && Admits(r.value, e.path) then Some(Insert(r.value, e.path, e.value)) else None
  }

  /** The trie of all entries, inserted in order. */
  function Build(es: seq<Entry>): (r: Option<Tree>)
    ensures r.Some? ==> r.value.Branch?
  {
    if es == [] then Some(Branch(map[])) else Append(Build(es[..|es| - 1]), es[|es| - 1])
  }

  lemma BuildSnoc(es: seq<Entry>, e: Entry)
    ensures Build(es + [e]) == Append(Build(es), e)
  {
    assert (es + [e])[..|es|] == es;
  }

  lemma FrontLast(es: seq<Entry>)
    requires es != []
    ensures es == es[..|es| - 1] + [es[|es| - 1]]
  {
  }

  /** A trie admits the paths that continue none of its entries' paths. */
  lemma {:induction false} BuildAdmits(es: seq<Entry>, q: Path)
    requires Build(es).Some?
    ensures Admits(Build(es).value, q) <==> forall e | e in es :: !(e.path < q)
  {
    if es != [] {
      var n := |es| - 1;
      FrontLast(es);
      BuildAdmits(es[..n], q);
      InsertAdmitsIff(Build(es[..n]).value, es[n].path, es[n].value, q);
    }
  }

  /** No path is empty, and none continues the path of an earlier entry. */
  predicate Insertable(es: seq<Entry>) {
    && (forall i | 0 <= i < |es| :: es[i].path != [])
    && (forall i, j | 0 <= i < j < |es| :: !(es[i].path < es[j].path))
  }

  /** A trie can be built exactly from insertable entries. */
  lemma {:induction false} BuildsIff(es: seq<Entry>)
    ensures Build(es).Some? <==> Insertable(es)
  {
    if es != [] {
      var n := |es| - 1;
      FrontLast(es);
      BuildsIff(es[..n]);
      InsertableSnoc(es[..n], es[n]);
      if Build(es[..n]).Some? {
        BuildAdmits(es[..n], es[n].path);
      }
    }
  }

  lemma InsertableSnoc(es: seq<Entry>, e: Entry)
    ensures Insertable(es + [e]) <==> Insertable(es) && e.path != [] && forall f | f in es :: !(f.path < e.path)
  {
    var all := es + [e];
    assert all[|es|] == e && forall i | 0 <= i < |es| :: all[i] == es[i];
    if Insertable(all) {
      forall f | f in es ensures !(f.path < e.path) {
        var i :| 0 <= i < |es| && es[i] == f;
        assert !(all[i].path < all[|es|].path);
      }
    }
  }

  /** The value was given for `p`, and every later entry's path is unrelated. */
  ghost predicate Stands(es: seq<Entry>, p: Path, value: string) {
    exists i :: 0 <= i < |es| && es[i] == Entry(p, value) && forall j | i < j < |es| :: Apart(es[j].path, p)
  }

  lemma StandsSnoc(es: seq<Entry>, e: Entry, p: Path, value: string)
    ensures Stands(es + [e], p, value) <==> e == Entry(p, value) || (Stands(es, p, value) && Apart(e.path, p))
  {
    var all := es + [e];
    if e == Entry(p, value) {
      assert all[|es|] == Entry(p, value);
    }
    if Stands(es, p, value) && Apart(e.path, p) {
      var i :| 0 <= i < |es| && es[i] == Entry(p, value) && forall j | i < j < |es| :: Apart(es[j].path, p);
      assert all[i] == Entry(p, value) && forall j | i < j < |all| :: Apart(all[j].path, p);
    }
    if Stands(all, p, value) && e != Entry(p, value) {
      var i :| 0 <= i < |all| && all[i] == Entry(p, value) && forall j | i < j < |all| :: Apart(all[j].path, p);
      assert all[|es|] == e && es[i] == Entry(p, value);
      forall j | i < j < |es| ensures Apart(es[j].path, p) { assert all[j] == es[j]; }
    }
  }

  /** A path looks up to a value exactly when some entry gave it and no later
      entry replaced it, removed it with its branch, or put a branch there. */
  lemma {:induction false} BuildStores(es: seq<Entry>, p: Path, value: string)
    requires Build(es).Some?
    ensures Lookup(Build(es).value, p) == Some(value) <==> Stands(es, p, value)
  {
    if es != [] {
      var n := |es| - 1;
      FrontLast(es);
      BuildStores(es[..n], p, value);
      StandsSnoc(es[..n], es[n], p, value);
      LookupAfter(Build(es[..n]).value, es[n], p);
    }
  }

  lemma LookupAfter(t: Tree, e: Entry, p: Path)
    requires e.path != [] && Admits(t, e.path)
    ensures Lookup(Insert(t, e.path, e.value), p)
         == if p == e.path then Some(e.value) else if Apart(e.path, p) then Lookup(t, p) else None
  {
    if p == e.path {
      LookupInserted(t, e.path, e.value);
    } else if Apart(e.path, p) {
      LookupApart(t, e.path, e.value, p);
    } else {
      LookupRelated(t, e.path, e.value, p);
    }
  }

  // ----------------------------------------------------------- insertion order

  /** Equal, or with unrelated paths. */
  predicate Agree(e: Entry, f: Entry) { e == f || Apart(e.path, f.path) }

  predicate Compatible(es: seq<Entry>) {
    forall e, f | e in es && f in es :: Agree(e, f)
  }

  lemma CompatibleBuilds(es: seq<Entry>)
    requires Compatible(es) && forall e | e in es :: e.path != []
    ensures Build(es).Some?
  {
    BuildsIff(es);
    forall i, j | 0 <= i < j < |es| ensures !(es[i].path < es[j].path) {
      assert Agree(es[i], es[j]);
    }
  }

  /** From compatible entries every path finds its own value, and no other path
      is a leaf. */
  lemma {:induction false} CompatibleStores(es: seq<Entry>, p: Path, value: string)
    requires Compatible(es) && forall e | e in es :: e.path != []
    ensures Build(es).Some?
    ensures Lookup(Build(es).value, p) == Some(value) <==> Entry(p, value) in es
  {
    CompatibleBuilds(es);
    if es != [] {
      var n := |es| - 1;
      FrontLast(es);
      CompatibleStores(es[..n], p, value);
      LookupAfter(Build(es[..n]).value, es[n], p);
      assert Entry(p, value) in es ==> Agree(Entry(p, value), es[n]);
    }
  }

  /** Two agreeing entries can be inserted in either order. */
  lemma AppendsCommute(r: Option<Tree>, e: Entry, f: Entry)
    requires Agree(e, f)
    ensures Append(Append(r, e), f) == Append(Append(r, f), e)
  {
    if e != f && r.Some? {
      var t := r.value;
      if Admits(t, e.path) && e.path != [] {
        InsertAdmitsIff(t, e.path, e.value, f.path);
      }
      if Admits(t, f.path) && f.path != [] {
        InsertAdmitsIff(t, f.path, f.value, e.path);
      }
      if Admits(t, e.path) && e.path != [] && Admits(t, f.path) && f.path != [] {
        InsertsCommute(t, e.path, e.value, f.path, f.value);
      }
    }
  }

  function Without(es: seq<Entry>, i: nat): seq<Entry>
    requires i < |es|
  {
    es[..i] + es[i + 1..]
  }

  lemma WithoutFront(es: seq<Entry>, i: nat)
    requires i + 1 < |es|
    ensures var n := |es| - 1; Without(es, i) == Without(es[..n], i) + [es[n]]
  {
  }

  lemma WithoutMultiset(es: seq<Entry>, i: nat)
    requires i < |es|
    ensures multiset(Without(es, i)) == multiset(es) - multiset{es[i]}
    ensures forall e | e in Without(es, i) :: e in es
  {
    assert es == es[..i] + [es[i]] + es[i + 1..];
  }

  /** The entry at any position may as well have been inserted last. */
  lemma {:induction false} InsertLast(es: seq<Entry>, i: nat)
    requires Compatible(es) && i < |es|
    ensures Build(es) == Append(Build(Without(es, i)), es[i])
    decreases |es|
  {
    var n := |es| - 1;
    if i == n {
      assert Without(es, i) == es[..n];
    } else {
      var rest := Without(es[..n], i);
      InsertLast(es[..n], i);
      WithoutFront(es, i);
      BuildSnoc(rest, es[n]);
      AppendsCommute(Build(rest), es[i], es[n]);
    }
  }

  /** Compatible entries give the same trie in every order. */
  lemma {:induction false} BuildAnyOrder(es: seq<Entry>, fs: seq<Entry>)
    requires Compatible(es) && multiset(es) == multiset(fs)
    ensures Build(es) == Build(fs)
    decreases |es|
  {
    SameElements(es, fs);
    if es != [] {
      var n := |es| - 1;
      FrontLast(es);
      assert es[n] in fs;
      var i :| 0 <= i < |fs| && fs[i] == es[n];
      WithoutMultiset(fs, i);
      assert multiset(es[..n]) == multiset(es) - multiset{es[n]};
      InsertLast(fs, i);
      BuildAnyOrder(es[..n], Without(fs, i));
    }
  }

  lemma SameElements(es: seq<Entry>, fs: seq<Entry>)
    requires multiset(es) == multiset(fs)
    ensures |es| == |fs| && forall e :: e in es <==> e in fs
  {
    assert |multiset(es)| == |es| && |multiset(fs)| == |fs|;
    assert forall e :: e in es <==> e in multiset(es);
    assert forall e :: e in fs <==> e in multiset(fs);
  }

  /** The outcome, a trie or a stop, is the same for every order. */
  ghost predicate OrderFree(es: seq<Entry>) {
    forall fs: seq<Entry> | multiset(fs) == multiset(es) :: Build(fs) == Build(es)
  }

  /** The outcome does not depend on the order of insertion exactly when the
      entries are compatible, or some path is empty and every order stops. */
  lemma OrderFreeIff(es: seq<Entry>)
    ensures OrderFree(es) <==> Compatible(es) || exists e :: e in es && e.path == []
  {
    if Compatible(es) {
      forall fs: seq<Entry> | multiset(fs) == multiset(es) ensures Build(fs) == Build(es) {
        BuildAnyOrder(es, fs);
      }
    } else if e :| e in es && e.path == [] {
      forall fs: seq<Entry> | multiset(fs) == multiset(es) ensures Build(fs) == Build(es) {
        SameElements(es, fs);
        EmptyStops(es, e);
        EmptyStops(fs, e);
      }
    } else {
      var e, f :| e in es && f in es && !Agree(e, f);
      if e.path == f.path {
        SamePathDiffers(es, e, f);
      } else if e.path < f.path {
        PrefixDiffers(es, e, f);
      } else {
        PrefixDiffers(es, f, e);
      }
    }
  }

  lemma EmptyStops(es: seq<Entry>, e: Entry)
    requires e in es && e.path == []
    ensures Build(es).None?
  {
    BuildsIff(es);
  }

  /** The entries in another order, with `e` and then `f` at the end. */
  lemma PairLast(es: seq<Entry>, e: Entry, f: Entry) returns (rest: seq<Entry>)
    requires e in es && f in es && e != f
    ensures multiset(rest + [e] + [f]) == multiset(es)
    ensures forall d :: d in rest + [e] + [f] <==> d in es
  {
    var front := Remove(es, e);
    rest := Remove(front, f);
    SameElements(rest + [e] + [f], es);
  }

  lemma Remove(es: seq<Entry>, e: Entry) returns (rest: seq<Entry>)
    requires e in es
    ensures multiset(rest + [e]) == multiset(es)
    ensures forall f | f in es && f != e :: f in rest
  {
    var i :| 0 <= i < |es| && es[i] == e;
    rest := Without(es, i);
    WithoutMultiset(es, i);
    SameElements(rest + [e], es);
  }

  lemma {:induction false} Shortest(es: seq<Entry>) returns (i: nat)
    requires es != []
    ensures i < |es| && forall e | e in es :: |es[i].path| <= |e.path|
  {
    i := 0;
    FrontLast(es);
    if |es| > 1 {
      i := Shortest(es[..|es| - 1]);
      if |es[|es| - 1].path| < |es[i].path| {
        i := |es| - 1;
      }
    }
  }

  /** With the longest paths first, no path continues an earlier one. */
  lemma {:induction false} LongestFirst(es: seq<Entry>) returns (fs: seq<Entry>)
    ensures multiset(fs) == multiset(es)
    ensures LongFirst(fs)
    decreases |es|
  {
    if es == [] {
      fs := [];
    } else {
      var i := Shortest(es);
      WithoutMultiset(es, i);
      var front := LongestFirst(Without(es, i));
      SameElements(front, Without(es, i));
      LongFirstSnoc(front, es[i]);
      fs := front + [es[i]];
    }
  }

  predicate LongFirst(es: seq<Entry>) {
    forall i, j | 0 <= i < j < |es| :: |es[i].path| >= |es[j].path|
  }

  lemma LongFirstSnoc(es: seq<Entry>, e: Entry)
    requires LongFirst(es) && forall f | f in es :: |f.path| >= |e.path|
    ensures LongFirst(es + [e])
  {
    assert forall i | 0 <= i < |es| :: es[i] in es;
  }

  /** With a path and a continuation of it, one order stops and another does not. */
  lemma PrefixDiffers(es: seq<Entry>, e: Entry, f: Entry)
    requires e in es && f in es && e.path < f.path && forall d | d in es :: d.path != []
    ensures !OrderFree(es)
  {
    var rest := PairLast(es, e, f);
    var stopped := rest + [e] + [f];
    assert stopped[|rest|] == e && stopped[|rest| + 1] == f;
    BuildsIff(stopped);
    var sorted := LongestFirst(es);
    SameElements(es, sorted);
    BuildsIff(sorted);
    TwoOutcomes(es, stopped, sorted);
  }

  lemma TwoOutcomes(es: seq<Entry>, fs: seq<Entry>, gs: seq<Entry>)
    requires multiset(fs) == multiset(gs) == multiset(es) && Build(fs) != Build(gs)
    ensures !OrderFree(es)
  {
  }

  /** With two values for a path, the one given last stands. */
  lemma SamePathDiffers(es: seq<Entry>, e: Entry, f: Entry)
    requires e in es && f in es && e != f && e.path == f.path && forall d | d in es :: d.path != []
    ensures !OrderFree(es)
  {
    if d, g :| d in es && g in es && d.path < g.path {
      PrefixDiffers(es, d, g);
    } else {
      var rest := PairLast(es, e, f);
      var one, other := rest + [e] + [f], rest + [f] + [e];
      assert multiset(other) == multiset(one) && forall d :: d in other <==> d in one;
      LastStands(rest + [e], f);
      LastStands(rest + [f], e);
      assert Lookup(Build(one).value, e.path) != Lookup(Build(other).value, e.path);
      TwoOutcomes(es, one, other);
    }
  }

  lemma LastStands(es: seq<Entry>, e: Entry)
    requires forall d | d in es + [e] :: d.path != []
    requires forall d, g | d in es + [e] && g in es + [e] :: !(d.path < g.path)
    ensures Build(es + [e]).Some?
    ensures Lookup(Build(es + [e]).value, e.path) == Some(e.value)
  {
    BuildsIff(es + [e]);
    BuildSnoc(es, e);
    LookupAfter(Build(es).value, e, e.path);
  }

  /** A query string with `[x]=1` and `[x][y]=2`: inserted in one order the second
      stops the program, in the other the first drops it. */
  lemma ConflictingPaths()
    ensures var e, f := Entry(["x"], "1"), Entry(["x", "y"], "2");
      Build([e, f]).None? && Build([f, e]) == Some(Branch(map["x" := Leaf("1")]))
  {
    var e, f := Entry(["x"], "1"), Entry(["x", "y"], "2");
    BuildsIff([e, f]);
    var below := Insert(Branch(map[]), f.path[1..], "2");
    assert Insert(Branch(map[]), f.path, "2") == Branch(map["x" := below]);
    assert Build([f]) == Some(Branch(map["x" := below])) by { assert [f][..0] == []; }
    assert [f, e][..1] == [f];
    assert map["x" := below]["x" := Leaf("1")] == map["x" := Leaf("1")];
  }

  // ------------------------------------------------------ the shared nested maps

  /** A Go `fieldOrValue`: a leaf has nil fields. */
  datatype FieldOrValue = FieldOrValue(fields: FieldMap?, value: string)

  /** What `f` stands for is `t`, held in maps of its own among `owned`. */
  ghost predicate Mirrors(f: FieldOrValue, t: Tree, owned: set<FieldMap>)
    reads owned
    decreases owned, 1
  {
    if f.fields == null then t == Leaf(f.value)
    else f.fields in owned && f.fields.repr <= owned && f.fields.Valid() && t == Branch(f.fields.model)
  }

  ghost predicate Separate(a: FieldMap?, b: FieldMap?)
    reads a, b
  {
    a != null && b != null ==> a.repr !! b.repr
  }

  /** A map's entries stand for `trees`, each in maps of its own among `owned`. */
  ghost predicate Forest(entries: map<string, FieldOrValue>, trees: map<string, Tree>, owned: set<FieldMap>)
    reads owned
    decreases owned, 2
  {
    && trees.Keys == entries.Keys
    && (forall k | k in entries :: Mirrors(entries[k], trees[k], owned))
    && (forall j, k | j in entries && k in entries && j != k :: Separate(entries[j].fields, entries[k].fields))
  }

  lemma ForestPut(entries: map<string, FieldOrValue>, trees: map<string, Tree>, owned: set<FieldMap>,
                  k: string, f: FieldOrValue, t: Tree, more: set<FieldMap>)
    requires Forest(entries, trees, owned) && Mirrors(f, t, more) && owned !! more
    ensures Forest(entries[k := f], trees[k := t], owned + more)
  {
    assert forall j | j in entries :: Mirrors(entries[j], trees[j], owned + more);
    assert Mirrors(f, t, owned + more);
  }

  lemma ForestWithout(entries: map<string, FieldOrValue>, trees: map<string, Tree>, owned: set<FieldMap>, k: string)
    requires Forest(entries, trees, owned) && k in entries && entries[k].fields != null
    ensures Forest(entries - {k}, trees - {k}, owned - entries[k].fields.repr)
  {
    var rest := owned - entries[k].fields.repr;
    forall j | j in entries && j != k ensures Mirrors(entries[j], trees[j], rest) {
      assert Mirrors(entries[j], trees[j], owned) && Separate(entries[j].fields, entries[k].fields);
    }
  }

  /** A Go `map[string]fieldOrValue`, shared by reference. */
  class FieldMap {
    var entries: map<string, FieldOrValue>
    ghost var repr: set<FieldMap>
    ghost var model: map<string, Tree>

    /** The maps below this one form a tree, and `model` is its value. */
    ghost predicate Valid()
      reads this, repr
      ensures Valid() ==> this in repr
      decreases repr, 0
    {
      this in repr && Forest(entries, model, repr - {this})
    }

    /** `make(map[string]fieldOrValue)`. */
    constructor ()
      ensures Valid() && fresh(repr) && model == map[] && repr == {this}
    {
      entries := map[];
      repr := {this};
      model := map[];
    }

    /** `appendPathValue`: the in-place update is `Insert` on the trie's value. It
        fails, and changes nothing, where the source would stop the program. */
    method AppendPathValue(path: Path, value: string) returns (ok: bool)
      requires Valid()
      modifies repr
      ensures Valid() && fresh(repr - old(repr))
      ensures ok <==> path != [] && Admits(Branch(old(model)), path)
      ensures Branch(model) == if ok then Insert(Branch(old(model)), path, value) else Branch(old(model))
      decreases |path|, 1
    {
      if |path| == 0 {
        return false;
      }
      var fieldName := path[0];
      if |path| == 1 {
        Put(fieldName, FieldOrValue(null, value), Leaf(value), {});
        return true;
      }
      InsertBelow(model, path, value);
      if fieldName !in entries {
        var made := new FieldMap();
        Put(fieldName, FieldOrValue(made, ""), Branch(map[]), made.repr);
      }
      ok := AppendBelow(fieldName, path[1..], value);
    }

    /** An assignment to the map, of a value in maps of its own. */
    method Put(fieldName: string, f: FieldOrValue, ghost t: Tree, ghost owned: set<FieldMap>)
      requires Valid() && Mirrors(f, t, owned) && owned !! repr
      modifies this
      ensures Valid() && repr == old(repr) + owned
      ensures entries == old(entries)[fieldName := f] && model == old(model)[fieldName := t]
    {
      ForestPut(entries, model, repr - {this}, fieldName, f, t, owned);
      assert repr - {this} + owned == repr + owned - {this};
      entries := entries[fieldName := f];
      model := model[fieldName := t];
      repr := repr + owned;
    }

    /** The recursive call on the map under `fieldName`; a leaf has none. */
    method AppendBelow(fieldName: string, path: Path, value: string) returns (ok: bool)
      requires Valid() && fieldName in entries && fieldName in model && path != []
      modifies repr
      ensures Valid() && fresh(repr - old(repr))
      ensures ok <==> Admits(old(model)[fieldName], path)
      ensures model == if ok then old(model)[fieldName := Insert(old(model)[fieldName], path, value)] else old(model)
      decreases |path|, 2
    {
      var child := entries[fieldName].fields;
      assert Mirrors(entries[fieldName], model[fieldName], repr - {this});
      if child == null {
        return false;
      }
      ForestWithout(entries, model, repr - {this}, fieldName);
      ghost var others := repr - {this} - child.repr;
      ok := child.AppendPathValue(path, value);
      ForestPut(entries - {fieldName}, model - {fieldName}, others, fieldName, entries[fieldName],
                Branch(child.model), child.repr);
      Adopt(fieldName, child, others + child.repr);
    }

    /** Brings the ghost state up to date after the branch `fieldName` has grown. */
    ghost method Adopt(fieldName: string, child: FieldMap, below: set<FieldMap>)
      requires fieldName in entries && fieldName in model && this !in below && this != child
      requires var tree := Branch(child.model);
        Forest((entries - {fieldName})[fieldName := entries[fieldName]],
               (model - {fieldName})[fieldName := tree], below)
      modifies this`repr, this`model
      ensures Valid() && repr == below + {this}
      ensures model == old(model)[fieldName := Branch(child.model)]
    {
      var tree := Branch(child.model);
      assert (entries - {fieldName})[fieldName := entries[fieldName]] == entries;
      assert (model - {fieldName})[fieldName := tree] == model[fieldName := tree];
      model := model[fieldName := tree];
      repr := below + {this};
      assert repr - {this} == below;
    }
  }

  lemma InsertBelow(fields: map<string, Tree>, path: Path, value: string)
    requires |path| > 1
    ensures var made := if path[0] in fields then fields else fields[path[0] := Branch(map[])];
      && (Admits(Branch(fields), path) <==> Admits(made[path[0]], path[1..]))
      && (Admits(Branch(fields), path) ==>
            Insert(Branch(fields), path, value) == Branch(made[path[0] := Insert(made[path[0]], path[1..], value)]))
  {
    var made := if path[0] in fields then fields else fields[path[0] := Branch(map[])];
    if Admits(Branch(fields), path) {
      var below := Insert(made[path[0]], path[1..], value);
      assert made[path[0] := below] == fields[path[0] := below];
    }
  }

  /** A stop is final: if all entries go in, so do the first `k` of them. */
  lemma {:induction false} BuildPrefix(es: seq<Entry>, k: nat)
    requires k <= |es| && Build(es).Some?
    ensures Build(es[..k]).Some?
    decreases |es|
  {
    if k < |es| {
      BuildPrefix(es[..|es| - 1], k);
      assert es[..|es| - 1][..k] == es[..k];
    } else {
      assert es[..k] == es;
    }
  }

  /** `makeFieldOrValue`; None where the source stops the program. */
  method MakeFieldOrValue(paths: seq<Path>, values: seq<string>) returns (r: Option<FieldOrValue>)
    requires |paths| == |values|
    ensures r.Some? <==> Build(Zip(paths, values)).Some?
    ensures r.Some? ==>
      var root := r.value.fields;
      root != null && root.Valid() && fresh(root.repr) && Branch(root.model) == Build(Zip(paths, values)).value
  {
    var root := new FieldMap();
    ghost var es := Zip(paths, values);
    for i := 0 to |paths|
      invariant root.Valid() && fresh(root.repr)
      invariant Build(es[..i]) == Some(Branch(root.model))
    {
      assert es[..i + 1][..i] == es[..i];
      var ok := root.AppendPathValue(paths[i], values[i]);
      if !ok {
        if Build(es).Some? { BuildPrefix(es, i + 1); }
        return None;
      }
    }
    WholeSlice(es);
    r := Some(FieldOrValue(root, ""));
  }

  function Zip(paths: seq<Path>, values: seq<string>): (es: seq<Entry>)
    requires |paths| == |values|
    ensures |es| == |paths|
    ensures forall i | 0 <= i < |es| :: es[i] == Entry(paths[i], values[i])
  {
    seq(|paths|, i requires 0 <= i < |paths| => Entry(paths[i], values[i]))
  }
}
