/** The two request-parameter conversions of the JSON:API serializer: the
    `include` list of dotted relationship paths becomes a tree of nested
    relationship names, and each sparse fieldset becomes a list of field
    names. */
module JsonApiParams {
  import opened Wrappers
  import opened Strings
  import opened Seqs

  /** A nested hash of relationship names; children keep insertion order. */
  datatype IncludeTree = Node(children: seq<(string, IncludeTree)>)

  const Leaf: IncludeTree := Node([])

  /** The position of the first child called `name`. */
  function ChildIndex(cs: seq<(string, IncludeTree)>, name: string): (r: Option<nat>)
    ensures r.Some? ==> r.value < |cs| && cs[r.value].0 == name
    ensures r.Some? ==> forall j :: 0 <= j < r.value ==> cs[j].0 != name
    ensures r.None? <==> forall j :: 0 <= j < |cs| ==> cs[j].0 != name
  {
    if |cs| == 0 then None
    else if cs[0].0 == name then Some(0)
    else
      match ChildIndex(cs[1..], name)
      case None => None
      case Some(i) => Some(i + 1)
  }

  /** The subtree under `name`, if there is one (Hash#[]). */
  function Child(t: IncludeTree, name: string): (r: Option<IncludeTree>)
    ensures r.Some? <==> exists j :: 0 <= j < |t.children| && t.children[j].0 == name
  {
    match ChildIndex(t.children, name)
    case None => None
    case Some(i) => Some(t.children[i].1)
  }

  /** `path` can be walked from the root of `t`. */
  predicate HasPath(t: IncludeTree, path: seq<string>)
    decreases |path|
  {
    |path| == 0 || (Child(t, path[0]).Some? && HasPath(Child(t, path[0]).value, path[1..]))
  }

  /** The inner loop: walk down `path`, creating each missing name
      (`temp_obj[name] ||= {}`). */
  function InsertPath(t: IncludeTree, path: seq<string>): (r: IncludeTree)
    decreases |path|
  {
    if |path| == 0 then t
    else
      match ChildIndex(t.children, path[0])
      case Some(i) => Node(t.children[i := (path[0], InsertPath(t.children[i].1, path[1..]))])
      case None => Node(t.children + [(path[0], InsertPath(Leaf, path[1..]))])
  }

  /** After inserting a path, the child under its first name is the old one
      (or a new empty one) with the rest of the path inserted; every other
      child is untouched. */
  lemma ChildOfInsert(t: IncludeTree, path: seq<string>, name: string)
    requires |path| > 0
    ensures Child(InsertPath(t, path), name) ==
      if name == path[0] then Some(InsertPath(Child(t, name).GetOr(Leaf), path[1..])) else Child(t, name)
  {
    var cs := t.children;
    var cs' := InsertPath(t, path).children;
    match ChildIndex(cs, path[0])
    case Some(i) =>
      assert forall j :: 0 <= j < |cs| ==> cs'[j].0 == cs[j].0;
      assert ChildIndex(cs', name) == ChildIndex(cs, name) by {
        ChildIndexSameNames(cs, cs', name);
      }
    case None =>
      assert cs'[..|cs|] == cs;
      assert ChildIndex(cs', name) == if name == path[0] then Some(|cs|) else ChildIndex(cs, name) by {
        ChildIndexAppend(cs, cs'[|cs|], name);
      }
  }

  /** The first position of a name depends on the names only. */
  lemma ChildIndexSameNames(a: seq<(string, IncludeTree)>, b: seq<(string, IncludeTree)>, name: string)
    requires |a| == |b| && forall j :: 0 <= j < |a| ==> a[j].0 == b[j].0
    ensures ChildIndex(a, name) == ChildIndex(b, name)
  {
    var ra, rb := ChildIndex(a, name), ChildIndex(b, name);
    if ra.Some? && rb.Some? {
      assert !(ra.value < rb.value) && !(rb.value < ra.value);
    }
  }

  lemma {:induction false} ChildIndexAppend(a: seq<(string, IncludeTree)>, e: (string, IncludeTree), name: string)
    requires ChildIndex(a, e.0) == None
    ensures ChildIndex(a + [e], name) == if name == e.0 then Some(|a|) else ChildIndex(a, name)
    decreases |a|
  {
    if |a| > 0 {
      assert (a + [e])[1..] == a[1..] + [e];
      if a[0].0 != name {
        ChildIndexAppend(a[1..], e, name);
      }
    }
  }

  /** An empty tree holds only the empty path. */
  lemma HasPathLeaf(p: seq<string>)
    ensures HasPath(Leaf, p) <==> |p| == 0
  {
  }

  /** Inserting `path` adds exactly its prefixes. */
  lemma {:induction false} InsertPathHas(t: IncludeTree, path: seq<string>, p: seq<string>)
    ensures HasPath(InsertPath(t, path), p) <==> HasPath(t, p) || p <= path
    decreases |path|
  {
    if |path| > 0 && |p| > 0 {
      ChildOfInsert(t, path, p[0]);
      if p[0] == path[0] {
        var c := Child(t, p[0]).GetOr(Leaf);
        InsertPathHas(c, path[1..], p[1..]);
        HasPathLeaf(p[1..]);
        assert p <= path <==> p[1..] <= path[1..];
      }
    }
  }

  /** The outer loop over the comma-separated paths. */
  function InsertAll(t: IncludeTree, paths: seq<seq<string>>): IncludeTree
    decreases |paths|
  {
    if |paths| == 0 then t else InsertAll(InsertPath(t, paths[0]), paths[1..])
  }

  lemma {:induction false} InsertAllHas(t: IncludeTree, paths: seq<seq<string>>, p: seq<string>)
    ensures HasPath(InsertAll(t, paths), p) <==> HasPath(t, p) || exists q :: q in paths && p <= q
    decreases |paths|
  {
    if |paths| > 0 {
      InsertAllHas(InsertPath(t, paths[0]), paths[1..], p);
      InsertPathHas(t, paths[0], p);
      var inRest := exists q :: q in paths[1..] && p <= q;
      var inAll := exists q :: q in paths && p <= q;
      assert inAll <==> p <= paths[0] || inRest by {
        if inAll {
          var q :| q in paths && p <= q;
          if q != paths[0] {
            assert q in paths[1..];
          }
        }
        if inRest {
          var q :| q in paths[1..] && p <= q;
          assert q in paths;
        }
        if p <= paths[0] {
          assert paths[0] in paths;
        }
      }
    }
  }

  /** The relationship paths of an `include` parameter: comma-separated,
      each a dot-separated list of names. */
  function Paths(included: string): (ps: seq<seq<string>>)
    ensures |ps| == |RubySplit(included, ',')|
    ensures forall i :: 0 <= i < |ps| ==> ps[i] == RubySplit(RubySplit(included, ',')[i], '.')
  {
    Map(RubySplit(included, ','), (path: string) => RubySplit(path, '.'))
  }

  /** convert_included_params: the tree holds a non-empty path iff it is a
      prefix of one of the requested paths. */
  function ConvertIncludedParams(included: string): (r: IncludeTree)
    ensures forall p :: HasPath(r, p) <==> p == [] || exists q :: q in Paths(included) && p <= q
  {
    var r := InsertAll(Leaf, Paths(included));
    forall p ensures HasPath(r, p) <==> p == [] || exists q :: q in Paths(included) && p <= q {
      InsertAllHas(Leaf, Paths(included), p);
      HasPathLeaf(p);
    }
    r
  }

  /** An empty parameter includes nothing. */
  lemma EmptyIncludeIsLeaf()
    ensures ConvertIncludedParams("") == Leaf
  {
    RubySplitEmpty(',');
    assert Paths("") == [];
  }

  /** "a.b,c" gives { a => { b => {} }, c => {} }. */
  lemma IncludeExample()
    ensures ConvertIncludedParams("a.b,c") == Node([("a", Node([("b", Leaf)])), ("c", Leaf)])
  {
    PathsExample();
    var t1 := InsertPath(Leaf, ["a", "b"]);
    assert ["a", "b"][1..] == ["b"];
    assert InsertPath(Leaf, ["b"]) == Node([("b", Leaf)]);
    assert t1 == Node([("a", Node([("b", Leaf)]))]);
    assert InsertPath(t1, ["c"]) == Node([("a", Node([("b", Leaf)])), ("c", Leaf)]);
    assert InsertAll(Leaf, [["a", "b"], ["c"]]) == InsertAll(t1, [["c"]]);
  }

  lemma PathsExample()
    ensures Paths("a.b,c") == [["a", "b"], ["c"]]
  {
    SplitCommaExample();
    SplitDotExample();
    SplitNoDotExample();
    var ps := Paths("a.b,c");
    assert |ps| == 2 && ps[0] == ["a", "b"] && ps[1] == ["c"];
  }

  lemma SplitNoDotExample()
    ensures RubySplit("c", '.') == ["c"]
  {
    assert Split("c", '.') == ["c"];
  }

  lemma SplitCommaExample()
    ensures RubySplit("a.b,c", ',') == ["a.b", "c"]
  {
    IndexOfAfterPrefix("a.b", ',', "c");
    assert "a.b" + [','] + "c" == "a.b,c";
    assert "a.b,c"[..3] == "a.b";
    assert "a.b,c"[4..] == "c";
    assert Split("c", ',') == ["c"];
    assert Split("a.b,c", ',') == ["a.b", "c"];
  }

  lemma SplitDotExample()
    ensures RubySplit("a.b", '.') == ["a", "b"]
  {
    IndexOfAfterPrefix("a", '.', "b");
    assert "a" + ['.'] + "b" == "a.b";
    assert "a.b"[..1] == "a";
    assert "a.b"[2..] == "b";
    assert Split("b", '.') == ["b"];
    assert Split("a.b", '.') == ["a", "b"];
  }

  /** One sparse fieldset: the comma-separated names, each once in
      first-occurrence order, blanks removed. */
  function FieldList(v: string): (r: seq<string>)
    ensures NoDuplicates(r)
    ensures forall x :: x in r <==> x in RubySplit(v, ',') && !IsBlank(x)
  {
    var d := Dedup(RubySplit(v, ','));
    var r := Filter(d, (x: string) => !IsBlank(x));
    FilterKeepsNoDuplicates(d, (x: string) => !IsBlank(x));
    r
  }

  lemma FilterKeepsNoDuplicates<T(!new)>(s: seq<T>, p: T -> bool)
    requires NoDuplicates(s)
    ensures NoDuplicates(Filter(s, p))
  {
    var r := Filter(s, p);
    forall i, j | 0 <= i < j < |r| ensures r[i] != r[j] {
      MultisetOfDistinct(s, r[i]);
      TwoOccurrences(r, i, j);
    }
  }

  /** Two equal elements at different positions count twice. */
  lemma TwoOccurrences<T>(r: seq<T>, i: nat, j: nat)
    requires i < j < |r|
    ensures r[i] == r[j] ==> multiset(r)[r[i]] >= 2
  {
    assert r == r[..j] + r[j..];
    assert multiset(r) == multiset(r[..j]) + multiset(r[j..]);
    assert r[i] in r[..j];
    assert r[j] in r[j..];
  }

  /** In a sequence without duplicates, an element occurs at most once. */
  lemma {:induction false} MultisetOfDistinct<T>(s: seq<T>, x: T)
    requires NoDuplicates(s)
    ensures multiset(s)[x] <= 1
    decreases |s|
  {
    if |s| > 0 {
      MultisetOfDistinct(s[1..], x);
      assert s == [s[0]] + s[1..];
      if s[0] == x {
        assert x !in s[1..];
      }
    }
  }

  /** convert_fields_params: every type keeps its entry, and each entry
      lists exactly its non-blank names, each once. */
  function ConvertFieldsParams(fieldsParams: map<string, string>): (r: map<string, seq<string>>)
    ensures r.Keys == fieldsParams.Keys
    ensures forall t :: t in r ==> NoDuplicates(r[t])
    ensures forall t, x :: t in r ==> (x in r[t] <==> x in RubySplit(fieldsParams[t], ',') && !IsBlank(x))
  {
    map t | t in fieldsParams :: FieldList(fieldsParams[t])
  }

  /** An empty fieldset names no field. */
  lemma EmptyFieldList()
    ensures FieldList("") == []
  {
    RubySplitEmpty(',');
  }

  /** "b,a,b" names b, then a. */
  lemma FieldListExamples()
    ensures FieldList("b,a,b") == ["b", "a"]
  {
    SplitBab();
    DedupBab();
    NotBlankBA();
  }

  lemma NotBlankBA()
    ensures Filter(["b", "a"], (x: string) => !IsBlank(x)) == ["b", "a"]
  {
    assert !IsBlankSpace("b"[0]) && !IsBlankSpace("a"[0]);
    FilterAll(["b", "a"], (x: string) => !IsBlank(x));
  }

  lemma SplitBab()
    ensures RubySplit("b,a,b", ',') == ["b", "a", "b"]
  {
    IndexOfAfterPrefix("a", ',', "b");
    assert "a" + [','] + "b" == "a,b";
    assert "a,b"[..1] == "a" && "a,b"[2..] == "b";
    assert Split("b", ',') == ["b"];
    assert Split("a,b", ',') == ["a", "b"];
    IndexOfAfterPrefix("b", ',', "a,b");
    assert "b" + [','] + "a,b" == "b,a,b";
    assert "b,a,b"[..1] == "b" && "b,a,b"[2..] == "a,b";
    assert Split("b,a,b", ',') == ["b", "a", "b"];
  }

  lemma DedupBab()
    ensures Dedup(["b", "a", "b"]) == ["b", "a"]
  {
    var s1: seq<string> := ["b"];
    var s2 := s1 + ["a"];
    var s3 := s2 + ["b"];
    assert Dedup(s1) == s1;
    DedupSnoc(s1, "a");
    DedupSnoc(s2, "b");
    assert s3 == ["b", "a", "b"];
  }
}
