/**
 * The dependency ordering of parse-ietf-doc.py: a post-order depth-first walk over the types a
 * protocol's PDUs refer to, appending each type's name to one shared list after the names of the
 * types it depends on, followed by a pass that keeps the first occurrence of every name.
 *
 * The protocol is a graph from type names to nodes; a node lists the names it refers to. The
 * walk has no cycle guard, so every entry point requires a ranking of the graph under which each
 * reference goes to a strictly smaller rank.
 */
module TypeDfs {
  import opened Wrappers

  /** The kinds of type the walk tells apart; every other kind (bit strings, primitives) is a leaf. */
  datatype Node =
    | StructNode(fieldTypes: seq<string>)
    | ArrayNode(elementType: string)
    | EnumNode(variants: seq<string>, parseFrom: Option<string>, serialiseTo: Option<string>)
    | FunctionNode(parameterTypes: seq<string>, returnType: string)
    | LeafNode

  type Graph = map<string, Node>

  function OptionList(o: Option<string>): seq<string>
  {
    if o.Some? then [o.value] else []
  }

  /** The names a node refers to. */
  function Children(node: Node): seq<string>
  {
    match node
    case StructNode(fs) => fs
    case ArrayNode(e) => [e]
    case EnumNode(vs, pf, st) => vs + OptionList(pf) + OptionList(st)
    case FunctionNode(ps, ret) => ps + [ret]
    case LeafNode => []
  }

  /** Every reference resolves in the graph and goes to a strictly smaller rank: the graph is acyclic. */
  ghost predicate Ranked(g: Graph, rank: map<string, nat>)
  {
    forall n :: n in g ==> n in rank && forall c :: c in Children(g[n]) ==> c in g && c in rank && rank[c] < rank[n]
  }

  /** Every name of `cs` is a node of rank below `bound`. */
  ghost predicate Below(g: Graph, rank: map<string, nat>, cs: seq<string>, bound: nat)
  {
    forall c :: c in cs ==> c in g && c in rank && rank[c] < bound
  }

  // ---------------------------------------------------------------------------------------------
  // The walk as functions of the list it starts from

  /** `dfs_protocoltype`: nothing for an absent type; otherwise the kind's own part, then the name. */
  ghost function Visit(g: Graph, rank: map<string, nat>, acc: seq<string>, pt: Option<string>): seq<string>
    requires Ranked(g, rank)
    requires pt.Some? ==> pt.value in g
    decreases if pt.Some? then rank[pt.value] + 1 else 0, 2, 0
  {
    match pt
    case None => acc
    case Some(n) => VisitKind(g, rank, acc, n) + [n]
  }

  /** What `dfs_struct`, `dfs_array`, `dfs_enum` and `dfs_function` add before the final name. */
  ghost function VisitKind(g: Graph, rank: map<string, nat>, acc: seq<string>, n: string): seq<string>
    requires Ranked(g, rank) && n in g
    decreases rank[n] + 1, 1, 0
  {
    match g[n]
    case StructNode(fs) =>
      VisitEach(g, rank, acc, fs, rank[n])
    case ArrayNode(e) =>
      Visit(g, rank, acc, Some(e))
    case EnumNode(vs, pf, st) =>
      assert forall v :: v in vs ==> v in Children(g[n]);
      assert pf.Some? ==> pf.value in Children(g[n]);
      assert st.Some? ==> st.value in Children(g[n]);
      var afterVariants := VisitEach(g, rank, acc, vs, rank[n]);
      var afterParse := VisitOption(g, rank, afterVariants + [n], pf, rank[n]);
      VisitOption(g, rank, afterParse, st, rank[n])
    case FunctionNode(ps, ret) =>
      assert forall p :: p in ps ==> p in Children(g[n]);
      VisitFresh(g, rank, VisitFreshEach(g, rank, acc, ps, rank[n]), ret, rank[n])
    case LeafNode =>
      acc
  }

  /** Visits each name of `cs` in order, threading the list through. */
  ghost function VisitEach(g: Graph, rank: map<string, nat>, acc: seq<string>, cs: seq<string>, bound: nat): seq<string>
    requires Ranked(g, rank) && Below(g, rank, cs, bound)
    decreases bound + 1, 0, |cs|
  {
    if cs == [] then acc
    else
      var front := cs[..|cs| - 1];
      assert forall c :: c in front ==> c in cs;
      Visit(g, rank, VisitEach(g, rank, acc, front, bound), Some(cs[|cs| - 1]))
  }

  /** Visits an optional reference of a node of rank `bound`. */
  ghost function VisitOption(g: Graph, rank: map<string, nat>, acc: seq<string>, o: Option<string>, bound: nat)
    : seq<string>
    requires Ranked(g, rank) && (o.Some? ==> o.value in g && o.value in rank && rank[o.value] < bound)
    decreases bound + 1, 0, 0
  {
    Visit(g, rank, acc, o)
  }

  /** `dfs_function`'s guard: a name already in the list is not visited again. */
  ghost function VisitFresh(g: Graph, rank: map<string, nat>, acc: seq<string>, c: string, bound: nat): seq<string>
    requires Ranked(g, rank) && c in g && c in rank && rank[c] < bound
    decreases bound + 1, 0, 0
  {
    if c in acc then acc else Visit(g, rank, acc, Some(c))
  }

  ghost function VisitFreshEach(g: Graph, rank: map<string, nat>, acc: seq<string>, cs: seq<string>, bound: nat)
    : seq<string>
    requires Ranked(g, rank) && Below(g, rank, cs, bound)
    decreases bound + 1, 0, |cs|
  {
    if cs == [] then acc
    else
      var front := cs[..|cs| - 1];
      assert forall c :: c in front ==> c in cs;
      VisitFresh(g, rank, VisitFreshEach(g, rank, acc, front, bound), cs[|cs| - 1], bound)
  }

  /** The raw list `dfs_protocol` builds: every PDU visited in order, starting from the empty list. */
  ghost function Traversal(g: Graph, rank: map<string, nat>, pdus: seq<string>): seq<string>
    requires Ranked(g, rank) && forall p :: p in pdus ==> p in g
  {
    if pdus == [] then []
    else
      var front := pdus[..|pdus| - 1];
      assert forall p :: p in front ==> p in pdus;
      Visit(g, rank, Traversal(g, rank, front), Some(pdus[|pdus| - 1]))
  }

  /** `x` is `n` itself or a type `n` refers to, directly or through other types. */
  ghost predicate DependsOn(g: Graph, rank: map<string, nat>, n: string, x: string)
    requires Ranked(g, rank) && n in g
    decreases rank[n]
  {
    x == n || exists c :: c in Children(g[n]) && DependsOn(g, rank, c, x)
  }

  /** Whatever `n` depends on is a node of the graph. */
  lemma {:induction false} DependsInGraph(g: Graph, rank: map<string, nat>, n: string, x: string)
    requires Ranked(g, rank) && n in g && DependsOn(g, rank, n, x)
    ensures x in g
    decreases rank[n]
  {
    if x != n {
      var c :| c in Children(g[n]) && DependsOn(g, rank, c, x);
      DependsInGraph(g, rank, c, x);
    }
  }

  /** What is added in two steps is what the first step added followed by what the second did. */
  lemma SuffixSplit(acc: seq<string>, mid: seq<string>, r: seq<string>)
    requires acc <= mid <= r
    ensures forall x :: x in r[|acc|..] ==> x in mid[|acc|..] || x in r[|mid|..]
  {
    assert r[|acc|..] == mid[|acc|..] + r[|mid|..];
  }

  /** A prefix's elements, at their positions, are those of the longer list. */
  lemma PrefixKeeps(a: seq<string>, b: seq<string>)
    requires a <= b
    ensures forall i :: 0 <= i < |a| ==> b[i] == a[i]
    ensures forall x :: x in a ==> x in b
  {
    forall x | x in a ensures x in b {
      var i :| 0 <= i < |a| && a[i] == x;
      assert b[i] == x;
    }
  }

  // ---------------------------------------------------------------------------------------------
  // What the walk adds: it only appends, and only names the visited type depends on

  lemma {:induction false} VisitGrows(g: Graph, rank: map<string, nat>, acc: seq<string>, pt: Option<string>)
    requires Ranked(g, rank)
    requires pt.Some? ==> pt.value in g
    ensures var r := Visit(g, rank, acc, pt);
      acc <= r && forall x :: x in r[|acc|..] ==> pt.Some? && DependsOn(g, rank, pt.value, x)
    decreases if pt.Some? then rank[pt.value] + 1 else 0, 2, 0
  {
    if pt.Some? {
      var k := VisitKind(g, rank, acc, pt.value);
      VisitKindGrows(g, rank, acc, pt.value);
      SuffixSplit(acc, k, k + [pt.value]);
    }
  }

  lemma {:induction false} VisitKindGrows(g: Graph, rank: map<string, nat>, acc: seq<string>, n: string)
    requires Ranked(g, rank) && n in g
    ensures var r := VisitKind(g, rank, acc, n);
      acc <= r && forall x :: x in r[|acc|..] ==> DependsOn(g, rank, n, x)
    decreases rank[n] + 1, 1, 0
  {
    var r := VisitKind(g, rank, acc, n);
    match g[n]
    case StructNode(fs) =>
      VisitEachGrows(g, rank, acc, fs, rank[n]);
      forall x | x in r[|acc|..] ensures DependsOn(g, rank, n, x) {
        var c :| c in fs && DependsOn(g, rank, c, x);
      }
    case ArrayNode(e) =>
      VisitGrows(g, rank, acc, Some(e));
      assert e in Children(g[n]);
    case EnumNode(vs, pf, st) =>
      assert forall v :: v in vs ==> v in Children(g[n]);
      assert pf.Some? ==> pf.value in Children(g[n]);
      assert st.Some? ==> st.value in Children(g[n]);
      var a1 := VisitEach(g, rank, acc, vs, rank[n]);
      var a2 := VisitOption(g, rank, a1 + [n], pf, rank[n]);
      VisitEachGrows(g, rank, acc, vs, rank[n]);
      VisitGrows(g, rank, a1 + [n], pf);
      VisitGrows(g, rank, a2, st);
      SuffixSplit(acc, a1, a1 + [n]);
      SuffixSplit(acc, a1 + [n], a2);
      SuffixSplit(acc, a2, r);
      forall x | x in r[|acc|..] ensures DependsOn(g, rank, n, x) {
        if x in a1[|acc|..] {
          var c :| c in vs && DependsOn(g, rank, c, x);
        }
      }
    case FunctionNode(ps, ret) =>
      assert forall p :: p in ps ==> p in Children(g[n]);
      assert ret in Children(g[n]);
      var a1 := VisitFreshEach(g, rank, acc, ps, rank[n]);
      VisitFreshEachGrows(g, rank, acc, ps, rank[n]);
      VisitFreshGrows(g, rank, a1, ret, rank[n]);
      SuffixSplit(acc, a1, r);
      forall x | x in r[|acc|..] ensures DependsOn(g, rank, n, x) {
        if x in a1[|acc|..] {
          var c :| c in ps && DependsOn(g, rank, c, x);
        }
      }
    case LeafNode =>
  }

  lemma {:induction false} VisitEachGrows(g: Graph, rank: map<string, nat>, acc: seq<string>, cs: seq<string>,
                                          bound: nat)
    requires Ranked(g, rank) && Below(g, rank, cs, bound)
    ensures var r := VisitEach(g, rank, acc, cs, bound);
      acc <= r && forall x :: x in r[|acc|..] ==> exists c :: c in cs && DependsOn(g, rank, c, x)
    decreases bound + 1, 0, |cs|
  {
    if cs != [] {
      var front := cs[..|cs| - 1];
      assert forall c :: c in front ==> c in cs;
      var mid := VisitEach(g, rank, acc, front, bound);
      var r := VisitEach(g, rank, acc, cs, bound);
      VisitEachGrows(g, rank, acc, front, bound);
      VisitGrows(g, rank, mid, Some(cs[|cs| - 1]));
      SuffixSplit(acc, mid, r);
      forall x | x in r[|acc|..] ensures exists c :: c in cs && DependsOn(g, rank, c, x) {
        if x in mid[|acc|..] {
          var c :| c in front && DependsOn(g, rank, c, x);
          assert c in cs;
        } else {
          assert cs[|cs| - 1] in cs;
        }
      }
    }
  }

  lemma {:induction false} VisitFreshGrows(g: Graph, rank: map<string, nat>, acc: seq<string>, c: string, bound: nat)
    requires Ranked(g, rank) && c in g && c in rank && rank[c] < bound
    ensures var r := VisitFresh(g, rank, acc, c, bound);
      acc <= r && c in r && forall x :: x in r[|acc|..] ==> DependsOn(g, rank, c, x)
    decreases bound + 1, 0, 0
  {
    if c !in acc {
      VisitGrows(g, rank, acc, Some(c));
    }
  }

  lemma {:induction false} VisitFreshEachGrows(g: Graph, rank: map<string, nat>, acc: seq<string>, cs: seq<string>,
                                               bound: nat)
    requires Ranked(g, rank) && Below(g, rank, cs, bound)
    ensures var r := VisitFreshEach(g, rank, acc, cs, bound);
      acc <= r && forall x :: x in r[|acc|..] ==> exists c :: c in cs && DependsOn(g, rank, c, x)
    decreases bound + 1, 0, |cs|
  {
    if cs != [] {
      var front := cs[..|cs| - 1];
      assert forall c :: c in front ==> c in cs;
      var mid := VisitFreshEach(g, rank, acc, front, bound);
      var r := VisitFreshEach(g, rank, acc, cs, bound);
      VisitFreshEachGrows(g, rank, acc, front, bound);
      VisitFreshGrows(g, rank, mid, cs[|cs| - 1], bound);
      SuffixSplit(acc, mid, r);
      forall x | x in r[|acc|..] ensures exists c :: c in cs && DependsOn(g, rank, c, x) {
        if x in mid[|acc|..] {
          var c :| c in front && DependsOn(g, rank, c, x);
          assert c in cs;
        } else {
          assert cs[|cs| - 1] in cs;
        }
      }
    }
  }

  /** Names listed before a step that only appends, and the one it appends, stay listed. */
  lemma ContainsStep(cs: seq<string>, mid: seq<string>, r: seq<string>)
    requires cs != []
    requires forall c :: c in cs[..|cs| - 1] ==> c in mid
    requires mid <= r && cs[|cs| - 1] in r
    ensures forall c :: c in cs ==> c in r
  {
    PrefixKeeps(mid, r);
    assert cs == cs[..|cs| - 1] + [cs[|cs| - 1]];
  }

  /** Each name of `cs` is in the list once they have all been visited. */
  lemma {:induction false} VisitEachContains(g: Graph, rank: map<string, nat>, acc: seq<string>, cs: seq<string>,
                                             bound: nat)
    requires Ranked(g, rank) && Below(g, rank, cs, bound)
    ensures forall c :: c in cs ==> c in VisitEach(g, rank, acc, cs, bound)
    decreases |cs|
  {
    if cs != [] {
      var front := cs[..|cs| - 1];
      assert forall c :: c in front ==> c in cs;
      var mid := VisitEach(g, rank, acc, front, bound);
      var r := Visit(g, rank, mid, Some(cs[|cs| - 1]));
      VisitEachContains(g, rank, acc, front, bound);
      VisitGrows(g, rank, mid, Some(cs[|cs| - 1]));
      ContainsStep(cs, mid, r);
    }
  }

  /** With the already-listed check, each name of `cs` is in the list afterwards too. */
  lemma {:induction false} VisitFreshEachContains(g: Graph, rank: map<string, nat>, acc: seq<string>,
                                                  cs: seq<string>, bound: nat)
    requires Ranked(g, rank) && Below(g, rank, cs, bound)
    ensures forall c :: c in cs ==> c in VisitFreshEach(g, rank, acc, cs, bound)
    decreases |cs|
  {
    if cs != [] {
      var front := cs[..|cs| - 1];
      assert forall c :: c in front ==> c in cs;
      var mid := VisitFreshEach(g, rank, acc, front, bound);
      var r := VisitFresh(g, rank, mid, cs[|cs| - 1], bound);
      VisitFreshEachContains(g, rank, acc, front, bound);
      VisitFreshGrows(g, rank, mid, cs[|cs| - 1], bound);
      ContainsStep(cs, mid, r);
    }
  }

  /** The list after an enumeration's own part holds its variants and the types it is parsed from and serialised to. */
  lemma EnumKindContainsChildren(g: Graph, rank: map<string, nat>, acc: seq<string>, n: string)
    requires Ranked(g, rank) && n in g && g[n].EnumNode?
    ensures forall c :: c in Children(g[n]) ==> c in VisitKind(g, rank, acc, n)
  {
    var EnumNode(vs, pf, st) := g[n];
    assert forall v :: v in vs ==> v in Children(g[n]);
    assert pf.Some? ==> pf.value in Children(g[n]);
    assert st.Some? ==> st.value in Children(g[n]);
    var a1 := VisitEach(g, rank, acc, vs, rank[n]);
    var a2 := VisitOption(g, rank, a1 + [n], pf, rank[n]);
    var a3 := VisitOption(g, rank, a2, st, rank[n]);
    assert VisitKind(g, rank, acc, n) == a3;
    VisitEachContains(g, rank, acc, vs, rank[n]);
    VisitGrows(g, rank, a1 + [n], pf);
    VisitGrows(g, rank, a2, st);
    assert a1 <= a1 + [n];
    PrefixKeeps(a1, a1 + [n]);
    PrefixKeeps(a1 + [n], a2);
    PrefixKeeps(a2, a3);
    if pf.Some? {
      assert a2 == Visit(g, rank, a1 + [n], pf);
      assert a2 == VisitKind(g, rank, a1 + [n], pf.value) + [pf.value];
    }
    if st.Some? {
      assert a3 == Visit(g, rank, a2, st);
      assert a3 == VisitKind(g, rank, a2, st.value) + [st.value];
    }
    forall c | c in Children(g[n]) ensures c in a3 {
      assert c in vs || c in OptionList(pf) || c in OptionList(st);
    }
  }

  /** The list after a type's own part holds every type it refers to. */
  lemma KindContainsChildren(g: Graph, rank: map<string, nat>, acc: seq<string>, n: string)
    requires Ranked(g, rank) && n in g
    ensures forall c :: c in Children(g[n]) ==> c in VisitKind(g, rank, acc, n)
  {
    var k := VisitKind(g, rank, acc, n);
    match g[n]
    case StructNode(fs) =>
      VisitEachContains(g, rank, acc, fs, rank[n]);
    case ArrayNode(e) =>
      assert e in Children(g[n]);
      assert k == Visit(g, rank, acc, Some(e));
      assert k == VisitKind(g, rank, acc, e) + [e];
    case EnumNode(_, _, _) =>
      EnumKindContainsChildren(g, rank, acc, n);
    case FunctionNode(ps, ret) =>
      assert forall p :: p in ps ==> p in Children(g[n]);
      assert ret in Children(g[n]);
      var a1 := VisitFreshEach(g, rank, acc, ps, rank[n]);
      VisitFreshEachContains(g, rank, acc, ps, rank[n]);
      VisitFreshGrows(g, rank, a1, ret, rank[n]);
      PrefixKeeps(a1, k);
    case LeafNode =>
  }

  /**
   * Post-order: visiting a type keeps the list it started from as a prefix, appends the type's
   * name last, and by then every type it refers to is in the list; everything added is a node
   * the type depends on.
   */
  lemma ChildrenBeforeParent(g: Graph, rank: map<string, nat>, acc: seq<string>, n: string)
    requires Ranked(g, rank) && n in g
    ensures var r := Visit(g, rank, acc, Some(n));
      && acc <= r && r[|r| - 1] == n
      && (forall c :: c in Children(g[n]) ==> c in r[..|r| - 1])
      && (forall x :: x in r[|acc|..] ==> x in g && DependsOn(g, rank, n, x))
  {
    var r := Visit(g, rank, acc, Some(n));
    assert r[..|r| - 1] == VisitKind(g, rank, acc, n);
    VisitGrows(g, rank, acc, Some(n));
    forall x | x in r[|acc|..] ensures x in g {
      DependsInGraph(g, rank, n, x);
    }
    KindContainsChildren(g, rank, acc, n);
  }

  /**
   * An enumeration's name is appended twice: once after its variants, before the types it is
   * parsed from and serialised to, and once more at the end.
   */
  lemma EnumNameAppendedTwice(g: Graph, rank: map<string, nat>, acc: seq<string>, n: string)
    requires Ranked(g, rank) && n in g && g[n].EnumNode?
    ensures var i := |VisitEach(g, rank, acc, g[n].variants, rank[n])|;
      var r := Visit(g, rank, acc, Some(n));
      |acc| <= i < |r| - 1 && r[i] == n && r[|r| - 1] == n
  {
    var EnumNode(vs, pf, st) := g[n];
    assert forall v :: v in vs ==> v in Children(g[n]);
    assert pf.Some? ==> pf.value in Children(g[n]);
    assert st.Some? ==> st.value in Children(g[n]);
    var a1 := VisitEach(g, rank, acc, vs, rank[n]);
    var a2 := VisitOption(g, rank, a1 + [n], pf, rank[n]);
    var a3 := VisitOption(g, rank, a2, st, rank[n]);
    assert VisitKind(g, rank, acc, n) == a3;
    VisitEachGrows(g, rank, acc, vs, rank[n]);
    VisitGrows(g, rank, a1 + [n], pf);
    VisitGrows(g, rank, a2, st);
    assert (a1 + [n])[|a1|] == n;
    PrefixKeeps(a1 + [n], a2);
    PrefixKeeps(a2, a3);
  }

  /** A function whose parameter and return types are all listed already adds only its own name. */
  lemma FunctionWithListedTypes(g: Graph, rank: map<string, nat>, acc: seq<string>, n: string)
    requires Ranked(g, rank) && n in g && g[n].FunctionNode?
    requires forall c :: c in Children(g[n]) ==> c in acc
    ensures Visit(g, rank, acc, Some(n)) == acc + [n]
  {
    var ps := g[n].parameterTypes;
    assert forall p :: p in ps ==> p in Children(g[n]);
    assert g[n].returnType in Children(g[n]);
    FreshEachOfListed(g, rank, acc, ps, rank[n]);
    assert VisitKind(g, rank, acc, n) == VisitFresh(g, rank, acc, g[n].returnType, rank[n]);
  }

  lemma {:induction false} FreshEachOfListed(g: Graph, rank: map<string, nat>, acc: seq<string>, cs: seq<string>,
                                             bound: nat)
    requires Ranked(g, rank) && Below(g, rank, cs, bound)
    requires forall c :: c in cs ==> c in acc
    ensures VisitFreshEach(g, rank, acc, cs, bound) == acc
    decreases |cs|
  {
    if cs != [] {
      var front := cs[..|cs| - 1];
      assert forall c :: c in front ==> c in cs;
      FreshEachOfListed(g, rank, acc, front, bound);
      assert cs[|cs| - 1] in cs;
    }
  }

  /** An absent type adds nothing; a leaf type (a bit string, a primitive) adds only its own name. */
  lemma AbsentAndLeafTypes(g: Graph, rank: map<string, nat>, acc: seq<string>, n: string)
    requires Ranked(g, rank) && n in g && g[n].LeafNode?
    ensures Visit(g, rank, acc, None) == acc
    ensures Visit(g, rank, acc, Some(n)) == acc + [n]
  {
  }

  // ---------------------------------------------------------------------------------------------
  // Dependency order: every listed type comes after the types it needs

  /**
   * The types that are listed before `node` wherever its name is appended: every type it refers
   * to, except that an enumeration's name is first appended after its variants only.
   */
  function Prerequisites(node: Node): seq<string>
  {
    if node.EnumNode? then node.variants else Children(node)
  }

  /** Each name of a node in `xs` comes after the prerequisites of that node. */
  ghost predicate DependencyOrdered(g: Graph, xs: seq<string>)
  {
    forall i :: 0 <= i < |xs| && xs[i] in g ==> forall c :: c in Prerequisites(g[xs[i]]) ==> c in xs[..i]
  }

  lemma OrderedAppend(g: Graph, xs: seq<string>, n: string)
    requires DependencyOrdered(g, xs)
    requires n in g ==> forall c :: c in Prerequisites(g[n]) ==> c in xs
    ensures DependencyOrdered(g, xs + [n])
  {
    var ys := xs + [n];
    forall i | 0 <= i < |ys| && ys[i] in g ensures forall c :: c in Prerequisites(g[ys[i]]) ==> c in ys[..i] {
      if i < |xs| {
        assert ys[i] == xs[i] && ys[..i] == xs[..i];
      } else {
        assert ys[..i] == xs;
      }
    }
  }

  lemma {:induction false} VisitOrdered(g: Graph, rank: map<string, nat>, acc: seq<string>, pt: Option<string>)
    requires Ranked(g, rank) && DependencyOrdered(g, acc)
    requires pt.Some? ==> pt.value in g
    ensures DependencyOrdered(g, Visit(g, rank, acc, pt))
    decreases if pt.Some? then rank[pt.value] + 1 else 0, 2, 0
  {
    if pt.Some? {
      var n := pt.value;
      VisitKindOrdered(g, rank, acc, n);
      KindContainsChildren(g, rank, acc, n);
      assert forall c :: c in Prerequisites(g[n]) ==> c in Children(g[n]);
      OrderedAppend(g, VisitKind(g, rank, acc, n), n);
    }
  }

  lemma {:induction false} VisitKindOrdered(g: Graph, rank: map<string, nat>, acc: seq<string>, n: string)
    requires Ranked(g, rank) && n in g && DependencyOrdered(g, acc)
    ensures DependencyOrdered(g, VisitKind(g, rank, acc, n))
    decreases rank[n] + 1, 1, 0
  {
    match g[n]
    case StructNode(fs) =>
      VisitEachOrdered(g, rank, acc, fs, rank[n]);
    case ArrayNode(e) =>
      assert e in Children(g[n]);
      VisitOrdered(g, rank, acc, Some(e));
    case EnumNode(vs, pf, st) =>
      assert forall v :: v in vs ==> v in Children(g[n]);
      assert pf.Some? ==> pf.value in Children(g[n]);
      assert st.Some? ==> st.value in Children(g[n]);
      var a1 := VisitEach(g, rank, acc, vs, rank[n]);
      var a2 := VisitOption(g, rank, a1 + [n], pf, rank[n]);
      VisitEachOrdered(g, rank, acc, vs, rank[n]);
      VisitEachContains(g, rank, acc, vs, rank[n]);
      OrderedAppend(g, a1, n);
      VisitOrdered(g, rank, a1 + [n], pf);
      VisitOrdered(g, rank, a2, st);
      EnumKind(g, rank, acc, n, a1, a2, Visit(g, rank, a2, st));
    case FunctionNode(ps, ret) =>
      assert forall p :: p in ps ==> p in Children(g[n]);
      assert ret in Children(g[n]);
      VisitFreshEachOrdered(g, rank, acc, ps, rank[n]);
      VisitFreshOrdered(g, rank, VisitFreshEach(g, rank, acc, ps, rank[n]), ret, rank[n]);
    case LeafNode =>
  }

  lemma {:induction false} VisitEachOrdered(g: Graph, rank: map<string, nat>, acc: seq<string>, cs: seq<string>,
                                            bound: nat)
    requires Ranked(g, rank) && Below(g, rank, cs, bound) && DependencyOrdered(g, acc)
    ensures DependencyOrdered(g, VisitEach(g, rank, acc, cs, bound))
    decreases bound + 1, 0, |cs|
  {
    if cs != [] {
      var front := cs[..|cs| - 1];
      assert forall c :: c in front ==> c in cs;
      VisitEachOrdered(g, rank, acc, front, bound);
      VisitOrdered(g, rank, VisitEach(g, rank, acc, front, bound), Some(cs[|cs| - 1]));
    }
  }

  lemma {:induction false} VisitFreshOrdered(g: Graph, rank: map<string, nat>, acc: seq<string>, c: string,
                                             bound: nat)
    requires Ranked(g, rank) && c in g && c in rank && rank[c] < bound && DependencyOrdered(g, acc)
    ensures DependencyOrdered(g, VisitFresh(g, rank, acc, c, bound))
    decreases bound + 1, 0, 0
  {
    if c !in acc {
      VisitOrdered(g, rank, acc, Some(c));
    }
  }

  lemma {:induction false} VisitFreshEachOrdered(g: Graph, rank: map<string, nat>, acc: seq<string>,
                                                 cs: seq<string>, bound: nat)
    requires Ranked(g, rank) && Below(g, rank, cs, bound) && DependencyOrdered(g, acc)
    ensures DependencyOrdered(g, VisitFreshEach(g, rank, acc, cs, bound))
    decreases bound + 1, 0, |cs|
  {
    if cs != [] {
      var front := cs[..|cs| - 1];
      assert forall c :: c in front ==> c in cs;
      VisitFreshEachOrdered(g, rank, acc, front, bound);
      VisitFreshOrdered(g, rank, VisitFreshEach(g, rank, acc, front, bound), cs[|cs| - 1], bound);
    }
  }

  /** The raw list holds every PDU. */
  lemma {:induction false} TraversalContainsPdus(g: Graph, rank: map<string, nat>, pdus: seq<string>)
    requires Ranked(g, rank) && forall p :: p in pdus ==> p in g
    ensures forall p :: p in pdus ==> p in Traversal(g, rank, pdus)
  {
    if pdus != [] {
      var front := pdus[..|pdus| - 1];
      var last := pdus[|pdus| - 1];
      assert forall p :: p in front ==> p in pdus;
      var t := Traversal(g, rank, front);
      TraversalContainsPdus(g, rank, front);
      VisitGrows(g, rank, t, Some(last));
      PrefixKeeps(t, Traversal(g, rank, pdus));
      assert pdus == front + [last];
    }
  }

  /** The raw list holds only types some PDU depends on. */
  lemma {:induction false} TraversalOnlyDependencies(g: Graph, rank: map<string, nat>, pdus: seq<string>)
    requires Ranked(g, rank) && forall p :: p in pdus ==> p in g
    ensures forall x :: x in Traversal(g, rank, pdus) ==> exists p :: p in pdus && DependsOn(g, rank, p, x)
  {
    if pdus != [] {
      var front := pdus[..|pdus| - 1];
      var last := pdus[|pdus| - 1];
      assert forall p :: p in front ==> p in pdus;
      var t := Traversal(g, rank, front);
      var r := Traversal(g, rank, pdus);
      TraversalOnlyDependencies(g, rank, front);
      VisitGrows(g, rank, t, Some(last));
      assert last in pdus;
      forall x | x in r ensures exists p :: p in pdus && DependsOn(g, rank, p, x) {
        if x in t {
          var p :| p in front && DependsOn(g, rank, p, x);
        } else {
          assert r == t + r[|t|..];
          assert x in r[|t|..];
        }
      }
    }
  }

  /** The raw list is in dependency order. */
  lemma {:induction false} TraversalOrdered(g: Graph, rank: map<string, nat>, pdus: seq<string>)
    requires Ranked(g, rank) && forall p :: p in pdus ==> p in g
    ensures DependencyOrdered(g, Traversal(g, rank, pdus))
  {
    if pdus != [] {
      var front := pdus[..|pdus| - 1];
      assert forall p :: p in front ==> p in pdus;
      TraversalOrdered(g, rank, front);
      VisitOrdered(g, rank, Traversal(g, rank, front), Some(pdus[|pdus| - 1]));
    }
  }

  // ---------------------------------------------------------------------------------------------
  // First-occurrence deduplication

  /** Keeps the first occurrence of every name, in order. */
  function Dedupe(xs: seq<string>): seq<string>
  {
    if xs == [] then []
    else
      var d := Dedupe(xs[..|xs| - 1]);
      if xs[|xs| - 1] in d then d else d + [xs[|xs| - 1]]
  }

  /** The position of the first occurrence of `x` in `xs`. */
  function FirstIndex(xs: seq<string>, x: string): (i: nat)
    requires x in xs
    ensures i < |xs| && xs[i] == x && forall j :: 0 <= j < i ==> xs[j] != x
  {
    if xs[0] == x then 0 else 1 + FirstIndex(xs[1..], x)
  }

  /** What is kept is exactly what occurs. */
  lemma {:induction false} DedupeMembers(xs: seq<string>)
    ensures forall x :: x in Dedupe(xs) <==> x in xs
  {
    if xs != [] {
      var front := xs[..|xs| - 1];
      DedupeMembers(front);
      assert xs == front + [xs[|xs| - 1]];
    }
  }

  /** No name is kept twice. */
  lemma {:induction false} DedupeDistinct(xs: seq<string>)
    ensures Distinct(Dedupe(xs))
  {
    if xs != [] {
      DedupeDistinct(xs[..|xs| - 1]);
    }
  }

  ghost predicate Distinct(xs: seq<string>)
  {
    forall i, j :: 0 <= i < j < |xs| ==> xs[i] != xs[j]
  }

  /** A name occurring in a prefix first occurs there at the same position. */
  lemma FirstIndexInPrefix(xs: seq<string>, k: nat, x: string)
    requires k <= |xs| && x in xs[..k]
    ensures FirstIndex(xs, x) == FirstIndex(xs[..k], x)
  {
  }

  /** The kept names come in the order of their first occurrences. */
  lemma {:induction false} DedupeOrder(xs: seq<string>)
    ensures forall i, j :: 0 <= i < j < |Dedupe(xs)| ==>
      Dedupe(xs)[i] in xs && Dedupe(xs)[j] in xs && FirstIndex(xs, Dedupe(xs)[i]) < FirstIndex(xs, Dedupe(xs)[j])
  {
    if xs == [] {
      assert Dedupe(xs) == [];
    } else {
      var front := xs[..|xs| - 1];
      var last := xs[|xs| - 1];
      var d := Dedupe(xs);
      var df := Dedupe(front);
      DedupeOrder(front);
      DedupeMembers(front);
      assert xs[..|xs| - 1] == front;
      forall y | y in df ensures y in xs && FirstIndex(xs, y) == FirstIndex(front, y) {
        FirstIndexInPrefix(xs, |xs| - 1, y);
      }
      assert FirstIndex(xs, last) == |xs| - 1 || last in df;
      forall i, j | 0 <= i < j < |d| ensures d[i] in xs && d[j] in xs && FirstIndex(xs, d[i]) < FirstIndex(xs, d[j]) {
        assert d == df || d == df + [last];
        assert d[i] == df[i] && d[i] in df;
        if j < |df| {
          assert d[j] == df[j] && d[j] in df;
          assert FirstIndex(front, df[i]) < FirstIndex(front, df[j]);
        } else {
          assert d[j] == last && last !in df;
          assert FirstIndex(front, d[i]) < |front|;
        }
      }
    }
  }

  /** A list without repeats is its own deduplication; in particular deduplicating twice changes nothing. */
  lemma {:induction false} DedupeOfDistinct(xs: seq<string>)
    requires Distinct(xs)
    ensures Dedupe(xs) == xs
  {
    if xs != [] {
      var front := xs[..|xs| - 1];
      DedupeOfDistinct(front);
      assert xs == front + [xs[|xs| - 1]];
    }
  }

  lemma DedupeIdempotent(xs: seq<string>)
    ensures Dedupe(Dedupe(xs)) == Dedupe(xs)
  {
    DedupeDistinct(xs);
    DedupeOfDistinct(Dedupe(xs));
  }

  /** Keeping first occurrences keeps the dependency order. */
  lemma {:induction false} DedupeOrdered(g: Graph, xs: seq<string>)
    requires DependencyOrdered(g, xs)
    ensures DependencyOrdered(g, Dedupe(xs))
  {
    if xs != [] {
      var front := xs[..|xs| - 1];
      var last := xs[|xs| - 1];
      forall i | 0 <= i < |front| && front[i] in g
        ensures forall c :: c in Prerequisites(g[front[i]]) ==> c in front[..i]
      {
        assert front[i] == xs[i] && front[..i] == xs[..i];
      }
      DedupeOrdered(g, front);
      DedupeMembers(front);
      assert xs[..|xs| - 1] == front;
      OrderedAppend(g, Dedupe(front), last);
    }
  }

  /**
   * What `dfs_protocol` returns: every PDU and every type a PDU depends on, nothing else, each
   * name once, and each type after its prerequisites.
   */
  lemma ProtocolOrder(g: Graph, rank: map<string, nat>, pdus: seq<string>)
    requires Ranked(g, rank) && forall p :: p in pdus ==> p in g
    ensures Distinct(Dedupe(Traversal(g, rank, pdus)))
    ensures DependencyOrdered(g, Dedupe(Traversal(g, rank, pdus)))
    ensures forall p :: p in pdus ==> p in Dedupe(Traversal(g, rank, pdus))
    ensures forall x :: x in Dedupe(Traversal(g, rank, pdus)) ==> x in g
    ensures forall x :: x in Dedupe(Traversal(g, rank, pdus)) ==> exists p :: p in pdus && DependsOn(g, rank, p, x)
  {
    var t := Traversal(g, rank, pdus);
    TraversalContainsPdus(g, rank, pdus);
    TraversalOnlyDependencies(g, rank, pdus);
    TraversalOrdered(g, rank, pdus);
    DedupeMembers(t);
    DedupeDistinct(t);
    DedupeOrdered(g, t);
    forall x | x in Dedupe(t) ensures x in g {
      var p :| p in pdus && DependsOn(g, rank, p, x);
      DependsInGraph(g, rank, p, x);
    }
  }

  // ---------------------------------------------------------------------------------------------
  // The walk as the program runs it: every step appends to one shared list

  /** The list of type names the walk functions share and append to. */
  class TypeNames {
    var names: seq<string>

    constructor()
      ensures names == []
    {
      names := [];
    }

    method Append(n: string)
      modifies this
      ensures names == old(names) + [n]
    {
      names := names + [n];
    }
  }

  /** `dfs_protocoltype`. */
  method DfsProtocolType(g: Graph, ghost rank: map<string, nat>, pt: Option<string>, tn: TypeNames)
    requires Ranked(g, rank)
    requires pt.Some? ==> pt.value in g
    modifies tn
    ensures tn.names == Visit(g, rank, old(tn.names), pt)
    decreases if pt.Some? then rank[pt.value] + 1 else 0, 2, 0
  {
    if pt.None? {
      return;
    }
    var n := pt.value;
    match g[n] {
      case StructNode(_) => DfsStruct(g, rank, n, tn);
      case ArrayNode(_) => DfsArray(g, rank, n, tn);
      case EnumNode(_, _, _) => DfsEnum(g, rank, n, tn);
      case FunctionNode(_, _) => DfsFunction(g, rank, n, tn);
      case LeafNode =>
    }
    tn.Append(n);
  }

  /** `dfs_struct`: visits the type of every field in order. */
  method DfsStruct(g: Graph, ghost rank: map<string, nat>, n: string, tn: TypeNames)
    requires Ranked(g, rank) && n in g && g[n].StructNode?
    modifies tn
    ensures tn.names == VisitKind(g, rank, old(tn.names), n)
    decreases rank[n] + 1, 1, 0
  {
    var fs := g[n].fieldTypes;
    assert forall c :: c in fs ==> c in Children(g[n]);
    for i := 0 to |fs|
      invariant Below(g, rank, fs[..i], rank[n])
      invariant tn.names == VisitEach(g, rank, old(tn.names), fs[..i], rank[n])
    {
      assert fs[..i + 1][..i] == fs[..i];
      DfsProtocolType(g, rank, Some(fs[i]), tn);
    }
    assert fs[..|fs|] == fs;
  }

  /** `dfs_array`: visits the element type. */
  method DfsArray(g: Graph, ghost rank: map<string, nat>, n: string, tn: TypeNames)
    requires Ranked(g, rank) && n in g && g[n].ArrayNode?
    modifies tn
    ensures tn.names == VisitKind(g, rank, old(tn.names), n)
    decreases rank[n] + 1, 1, 0
  {
    assert g[n].elementType in Children(g[n]);
    DfsProtocolType(g, rank, Some(g[n].elementType), tn);
  }

  /** The three stages of an enumeration's own part, as `dfs_enum` runs them. */
  lemma EnumKind(g: Graph, rank: map<string, nat>, acc: seq<string>, n: string,
                 afterVariants: seq<string>, afterParse: seq<string>, r: seq<string>)
    requires Ranked(g, rank) && n in g && g[n].EnumNode?
    requires Below(g, rank, g[n].variants, rank[n])
    requires afterVariants == VisitEach(g, rank, acc, g[n].variants, rank[n])
    requires g[n].parseFrom.Some? ==> g[n].parseFrom.value in g
    requires g[n].serialiseTo.Some? ==> g[n].serialiseTo.value in g
    requires afterParse == Visit(g, rank, afterVariants + [n], g[n].parseFrom)
    requires r == Visit(g, rank, afterParse, g[n].serialiseTo)
    ensures r == VisitKind(g, rank, acc, n)
  {
  }

  /**
   * `dfs_enum`: visits every variant, appends the enumeration's own name, then visits the types it
   * is parsed from and serialised to.
   */
  method DfsEnum(g: Graph, ghost rank: map<string, nat>, n: string, tn: TypeNames)
    requires Ranked(g, rank) && n in g && g[n].EnumNode?
    modifies tn
    ensures tn.names == VisitKind(g, rank, old(tn.names), n)
    decreases rank[n] + 1, 1, 0
  {
    var EnumNode(vs, pf, st) := g[n];
    assert forall c :: c in vs ==> c in Children(g[n]);
    assert pf.Some? ==> pf.value in Children(g[n]);
    assert st.Some? ==> st.value in Children(g[n]);
    DfsVariants(g, rank, vs, rank[n], tn);
    ghost var afterVariants := tn.names;
    tn.Append(n);
    DfsProtocolType(g, rank, pf, tn);
    ghost var afterParse := tn.names;
    DfsProtocolType(g, rank, st, tn);
    EnumKind(g, rank, old(tn.names), n, afterVariants, afterParse, tn.names);
  }

  /** The variant loop of `dfs_enum`: visits every variant in order. */
  method DfsVariants(g: Graph, ghost rank: map<string, nat>, vs: seq<string>, ghost bound: nat, tn: TypeNames)
    requires Ranked(g, rank) && Below(g, rank, vs, bound)
    modifies tn
    ensures tn.names == VisitEach(g, rank, old(tn.names), vs, bound)
    decreases bound, 3, 0
  {
    for i := 0 to |vs|
      invariant Below(g, rank, vs[..i], bound)
      invariant tn.names == VisitEach(g, rank, old(tn.names), vs[..i], bound)
    {
      assert vs[..i + 1][..i] == vs[..i];
      DfsProtocolType(g, rank, Some(vs[i]), tn);
    }
    assert vs[..|vs|] == vs;
  }

  /**
   * `dfs_function`: visits each parameter type, then the return type, skipping any whose name is
   * listed already.
   */
  method DfsFunction(g: Graph, ghost rank: map<string, nat>, n: string, tn: TypeNames)
    requires Ranked(g, rank) && n in g && g[n].FunctionNode?
    modifies tn
    ensures tn.names == VisitKind(g, rank, old(tn.names), n)
    decreases rank[n] + 1, 1, 0
  {
    var FunctionNode(ps, ret) := g[n];
    assert forall c :: c in ps ==> c in Children(g[n]);
    assert ret in Children(g[n]);
    for i := 0 to |ps|
      invariant Below(g, rank, ps[..i], rank[n])
      invariant tn.names == VisitFreshEach(g, rank, old(tn.names), ps[..i], rank[n])
    {
      assert ps[..i + 1][..i] == ps[..i];
      if ps[i] !in tn.names {
        DfsProtocolType(g, rank, Some(ps[i]), tn);
      }
    }
    assert ps[..|ps|] == ps;
    if ret !in tn.names {
      DfsProtocolType(g, rank, Some(ret), tn);
    }
  }

  /**
   * `dfs_protocol`: walks every PDU in order into one list, then keeps the first occurrence of
   * each name.
   */
  method DfsProtocol(g: Graph, ghost rank: map<string, nat>, pdus: seq<string>) returns (r: seq<string>)
    requires Ranked(g, rank) && forall p :: p in pdus ==> p in g
    ensures r == Dedupe(Traversal(g, rank, pdus))
    ensures Distinct(r) && DependencyOrdered(g, r)
    ensures forall p :: p in pdus ==> p in r
    ensures forall x :: x in r ==> x in g
  {
    var tn := new TypeNames();
    for i := 0 to |pdus|
      invariant tn.names == Traversal(g, rank, pdus[..i])
    {
      assert pdus[..i + 1][..i] == pdus[..i];
      DfsProtocolType(g, rank, Some(pdus[i]), tn);
    }
    assert pdus[..|pdus|] == pdus;
    var names := tn.names;
    r := [];
    for i := 0 to |names|
      invariant r == Dedupe(names[..i])
    {
      assert names[..i + 1][..i] == names[..i];
      if names[i] !in r {
        r := r + [names[i]];
      }
    }
    assert names[..|names|] == names;
    ProtocolOrder(g, rank, pdus);
  }

  // ---------------------------------------------------------------------------------------------
  // Two small protocols

  const ChainGraph: Graph := map["A" := StructNode(["B"]), "B" := ArrayNode("C"), "C" := LeafNode]
  const ChainRank: map<string, nat> := map["A" := 2, "B" := 1, "C" := 0]

  lemma ChainRanked()
    ensures Ranked(ChainGraph, ChainRank)
  {
    assert Children(ChainGraph["A"]) == ["B"];
    assert Children(ChainGraph["B"]) == ["C"];
    assert Children(ChainGraph["C"]) == [];
  }

  /** A structure over an array of a bit string lists the bit string, then the array, then the structure. */
  lemma ChainExample()
    ensures Ranked(ChainGraph, ChainRank) && Dedupe(Traversal(ChainGraph, ChainRank, ["A"])) == ["C", "B", "A"]
  {
    var g, rank := ChainGraph, ChainRank;
    ChainRanked();
    AbsentAndLeafTypes(g, rank, [], "C");
    assert Visit(g, rank, [], Some("B")) == ["C", "B"];
    assert ["B"][..0] == [];
    assert VisitEach(g, rank, [], ["B"], 2) == ["C", "B"];
    assert Visit(g, rank, [], Some("A")) == ["C", "B", "A"];
    assert ["A"][..0] == [];
    assert Traversal(g, rank, ["A"]) == ["C", "B", "A"];
    DedupeOfDistinct(["C", "B", "A"]);
  }

  const EnumGraph: Graph := map["E" := EnumNode(["V"], Some("P"), None), "V" := LeafNode, "P" := LeafNode]
  const EnumRank: map<string, nat> := map["E" := 1, "V" := 0, "P" := 0]

  lemma EnumRanked()
    ensures Ranked(EnumGraph, EnumRank)
  {
    assert Children(EnumGraph["E"]) == ["V", "P"];
    assert Children(EnumGraph["V"]) == [];
    assert Children(EnumGraph["P"]) == [];
  }

  /**
   * Walked from itself, the enumeration E is listed before the type P it is parsed from: the raw
   * list holds E twice, and deduplication keeps the earlier one.
   */
  lemma EnumExample()
    ensures Ranked(EnumGraph, EnumRank)
    ensures Traversal(EnumGraph, EnumRank, ["E"]) == ["V", "E", "P", "E"]
  {
    var g, rank := EnumGraph, EnumRank;
    EnumRanked();
    AbsentAndLeafTypes(g, rank, [], "V");
    AbsentAndLeafTypes(g, rank, ["V", "E"], "P");
    assert ["V"][..0] == [];
    assert VisitEach(g, rank, [], ["V"], 1) == ["V"];
    assert g["E"] == EnumNode(["V"], Some("P"), None);
    assert VisitOption(g, rank, ["V", "E"], Some("P"), 1) == ["V", "E", "P"];
    assert VisitOption(g, rank, ["V", "E", "P"], None, 1) == ["V", "E", "P"];
    assert VisitKind(g, rank, [], "E") == ["V", "E", "P"];
    assert Visit(g, rank, [], Some("E")) == ["V", "E", "P", "E"];
    assert ["E"][..0] == [];
  }

  /** Deduplicating that list keeps the first occurrence of the enumeration's name. */
  lemma EnumExampleDeduplicated()
    ensures Dedupe(["V", "E", "P", "E"]) == ["V", "E", "P"]
  {
    var t := ["V", "E", "P", "E"];
    assert t[..3] == ["V", "E", "P"];
    DedupeOfDistinct(t[..3]);
  }

  /** E's own walk after P is listed: V, then E, then P again, since conversion types are not guarded. */
  lemma EnumKindAfterConversionType()
    ensures Ranked(EnumGraph, EnumRank)
    ensures VisitKind(EnumGraph, EnumRank, ["P"], "E") == ["P", "V", "E", "P"]
  {
    var g, rank := EnumGraph, EnumRank;
    EnumRanked();
    AbsentAndLeafTypes(g, rank, ["P"], "V");
    AbsentAndLeafTypes(g, rank, ["P", "V", "E"], "P");
    assert ["V"][..0] == [];
    assert VisitEach(g, rank, ["P"], ["V"], 1) == ["P", "V"];
    assert g["E"] == EnumNode(["V"], Some("P"), None);
    assert VisitOption(g, rank, ["P", "V", "E"], Some("P"), 1) == ["P", "V", "E", "P"];
    assert VisitOption(g, rank, ["P", "V", "E", "P"], None, 1) == ["P", "V", "E", "P"];
  }

  /** With the PDUs P and E, P is walked first and again inside E's walk: P, V, E, P, E. */
  lemma ConversionTypeWalk()
    ensures Ranked(EnumGraph, EnumRank)
    ensures Traversal(EnumGraph, EnumRank, ["P", "E"]) == ["P", "V", "E", "P", "E"]
  {
    var g, rank := EnumGraph, EnumRank;
    EnumKindAfterConversionType();
    AbsentAndLeafTypes(g, rank, [], "P");
    assert ["P"][..0] == [];
    assert Traversal(g, rank, ["P"]) == ["P"];
    assert Visit(g, rank, ["P"], Some("E")) == ["P", "V", "E", "P", "E"];
    assert ["P", "E"][..1] == ["P"];
  }

  /**
   * A conversion type listed before the enumeration keeps its earlier place: that walk
   * deduplicates to P, V, E, so here P precedes E.
   */
  lemma ConversionTypeListedFirst()
    ensures Ranked(EnumGraph, EnumRank)
    ensures Dedupe(Traversal(EnumGraph, EnumRank, ["P", "E"])) == ["P", "V", "E"]
  {
    ConversionTypeWalk();
    var t := ["P", "V", "E", "P", "E"];
    assert t[..3] == ["P", "V", "E"];
    DedupeOfDistinct(t[..3]);
    assert t[..4][..3] == t[..3];
    assert t[..5][..4] == t[..4];
    assert t[..5] == t;
  }
}
