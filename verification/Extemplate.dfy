/** extemplate/template.go: templates that extend other templates. */
module Extemplate {
  import opened Wrappers

  /** A parsed body; a blank one has nothing but white space and comments. */
  datatype Body = Body(blank: bool, text: string)

  /** A template file: what it extends ("" for nothing), whether its text parses, the blocks it defines
    * and what is left outside of them. */
  datatype File = File(layout: string, parses: bool, defines: map<string, Body>, main: Body)

  type Files = map<string, File>

  type Namespace = map<string, Body>

  // ---- the chain of layouts

  /** The file `k` steps up from `name`, None past the end. */
  function Ancestor(files: Files, name: string, k: nat): (a: Option<string>)
    ensures a.Some? ==> a.value in files
  {
    if k == 0 then (if name in files then Some(name) else None)
    else
      match Ancestor(files, name, k - 1)
      case None => None
      case Some(below) =>
        if files[below].layout in files then Some(files[below].layout) else None
  }

  /** Some number of steps leads past the end. */
  ghost predicate Ends(files: Files, name: string) {
    exists k: nat :: Ancestor(files, name, k) == None
  }

  lemma {:induction false} PastTheEnd(files: Files, name: string, j: nat, k: nat)
    requires j <= k && Ancestor(files, name, j) == None
    ensures Ancestor(files, name, k) == None
  {
    if j < k {
      PastTheEnd(files, name, j, k - 1);
    }
  }

  /** From two steps at the same file the walks go on alike. */
  lemma {:induction false} SameFromThere(files: Files, name: string, i: nat, j: nat, d: nat)
    requires Ancestor(files, name, i) == Ancestor(files, name, j)
    ensures Ancestor(files, name, i + d) == Ancestor(files, name, j + d)
  {
    if d > 0 {
      SameFromThere(files, name, i, j, d - 1);
    }
  }

  /** A file met twice is met for ever. */
  lemma {:induction false} RoundAndRound(files: Files, name: string, i: nat, j: nat, k: nat)
    requires i < j && Ancestor(files, name, i).Some? && Ancestor(files, name, i) == Ancestor(files, name, j)
    ensures Ancestor(files, name, k).Some?
    decreases k
  {
    if k <= i {
      if Ancestor(files, name, k) == None {
        PastTheEnd(files, name, k, i);
      }
    } else if k <= j {
      if Ancestor(files, name, k) == None {
        PastTheEnd(files, name, k, j);
      }
    } else {
      SameFromThere(files, name, i, j, k - j);
      RoundAndRound(files, name, i, j, k - (j - i));
    }
  }

  ghost predicate Repeats(files: Files, name: string) {
    exists i: nat, j: nat ::
      i < j && Ancestor(files, name, i).Some? && Ancestor(files, name, i) == Ancestor(files, name, j)
  }

  ghost function Met(files: Files, name: string, n: nat): (met: set<string>)
    ensures met <= files.Keys
  {
    set k: nat | k < n && Ancestor(files, name, k).Some? :: Ancestor(files, name, k).value
  }

  lemma {:induction false} MetAll(files: Files, name: string, n: nat)
    requires !Repeats(files, name) && forall k: nat :: k < n ==> Ancestor(files, name, k).Some?
    ensures |Met(files, name, n)| == n
  {
    if n > 0 {
      var last := Ancestor(files, name, n - 1).value;
      MetAll(files, name, n - 1);
      assert last !in Met(files, name, n - 1);
      assert Met(files, name, n) == Met(files, name, n - 1) + {last};
    }
  }

  /** Exactly when the walk up ends: when no file is met twice, and then within as many steps as there
    * are files. */
  lemma EndsExactly(files: Files, name: string)
    ensures Ends(files, name) <==> !Repeats(files, name)
    ensures Ends(files, name) <==> Ancestor(files, name, |files|) == None
  {
    assert |files.Keys| == |files|;
    if i: nat, j: nat :|
      i < j && Ancestor(files, name, i).Some? && Ancestor(files, name, i) == Ancestor(files, name, j) {
      forall k: nat
        ensures Ancestor(files, name, k).Some?
      {
        RoundAndRound(files, name, i, j, k);
      }
    } else if Ancestor(files, name, |files|).Some? {
      forall k: nat | k < |files| + 1
        ensures Ancestor(files, name, k).Some?
      {
        if Ancestor(files, name, k) == None {
          PastTheEnd(files, name, k, |files|);
        }
      }
      MetAll(files, name, |files| + 1);
      NoMoreThan(Met(files, name, |files| + 1), files.Keys);
    }
  }

  lemma {:induction false} NoMoreThan(a: set<string>, b: set<string>)
    requires a <= b
    ensures |a| <= |b|
  {
    if x :| x in a {
      NoMoreThan(a - {x}, b - {x});
    }
  }

  /** The files from `name` up, the nearest first. */
  ghost predicate IsChain(files: Files, name: string, chain: seq<string>) {
    && (forall k :: 0 <= k < |chain| ==> Ancestor(files, name, k) == Some(chain[k]))
    && Ancestor(files, name, |chain|) == None
  }

  lemma ChainVisitsOnce(files: Files, name: string, chain: seq<string>)
    requires IsChain(files, name, chain)
    ensures |chain| <= |files|
    ensures forall i, j :: 0 <= i < j < |chain| ==> chain[i] != chain[j]
  {
    assert Ends(files, name);
    EndsExactly(files, name);
    forall i, j | 0 <= i < j < |chain|
      ensures chain[i] != chain[j]
    {
      assert Ancestor(files, name, i) == Some(chain[i]);
    }
  }

  /** The loop over the parents of a file. It needs them to come to an end. */
  method Chain(files: Files, name: string) returns (chain: seq<string>)
    requires name in files && Ends(files, name)
    ensures IsChain(files, name, chain) && chain != [] && chain[0] == name
    ensures |chain| <= |files| && forall i, j :: 0 <= i < j < |chain| ==> chain[i] != chain[j]
  {
    EndsExactly(files, name);
    chain := [name];
    var pname := files[name].layout;
    assert Ancestor(files, name, 0) == Some(name);
    while pname in files
      invariant chain != [] && chain[0] == name
      invariant forall k :: 0 <= k < |chain| ==> Ancestor(files, name, k) == Some(chain[k])
      invariant pname == files[chain[|chain| - 1]].layout
      invariant |chain| <= |files|
      decreases |files| - |chain|
    {
      assert Ancestor(files, name, |chain|) == Some(pname);
      if |files| <= |chain| {
        PastTheEnd(files, name, |files|, |chain|);
      }
      chain := chain + [pname];
      pname := files[pname].layout;
    }
    ChainVisitsOnce(files, name, chain);
  }

  // ---- parsing into a namespace

  /** What the text of a file puts under which name when a template called `name` parses it. */
  function Definitions(f: File, name: string): Namespace {
    f.defines[name := f.main]
  }

  /** A new body takes the place of the old one, unless it is blank. */
  function Associate(ns: Namespace, defs: Namespace): Namespace {
    map b | b in ns.Keys + defs.Keys :: if b in defs && (b !in ns || !defs[b].blank) then defs[b] else ns[b]
  }

  ghost function Look(ns: Namespace, b: string): Option<Body> {
    if b in ns then Some(ns[b]) else None
  }

  /** The definition nearest to the start of the chain that is not blank. */
  ghost function Nearest(files: Files, chain: seq<string>, name: string, b: string): Option<Body>
    requires forall k :: 0 <= k < |chain| ==> chain[k] in files
  {
    if chain == [] then None
    else
      var defs := Definitions(files[chain[0]], name);
      if b in defs && !defs[b].blank then Some(defs[b]) else Nearest(files, chain[1..], name, b)
  }

  /** The definition furthest up the chain. */
  ghost function Furthest(files: Files, chain: seq<string>, name: string, b: string): Option<Body>
    requires forall k :: 0 <= k < |chain| ==> chain[k] in files
  {
    if chain == [] then None
    else
      var further := Furthest(files, chain[1..], name, b);
      if further.Some? then further else Look(Definitions(files[chain[0]], name), b)
  }

  /** What a block comes to: the nearest definition with something in it, else what was shared before,
    * else the blank definition furthest up. */
  ghost function Resolved(shared: Namespace, files: Files, chain: seq<string>, name: string, b: string): Option<Body>
    requires forall k :: 0 <= k < |chain| ==> chain[k] in files
  {
    var near := Nearest(files, chain, name, b);
    if near.Some? then near
    else if b in shared then Some(shared[b])
    else Furthest(files, chain, name, b)
  }

  ghost predicate Resolves(ns: Namespace, shared: Namespace, files: Files, chain: seq<string>, name: string)
    requires forall k :: 0 <= k < |chain| ==> chain[k] in files
  {
    forall b :: Look(ns, b) == Resolved(shared, files, chain, name, b)
  }

  /** Parsing the next file down keeps this true. */
  lemma ResolvesMore(ns: Namespace, shared: Namespace, files: Files, chain: seq<string>, name: string, next: string)
    requires forall k :: 0 <= k < |chain| ==> chain[k] in files
    requires next in files && Resolves(ns, shared, files, chain, name)
    ensures Resolves(Associate(ns, Definitions(files[next], name)), shared, files, [next] + chain, name)
  {
    var defs := Definitions(files[next], name);
    assert ([next] + chain)[1..] == chain;
    forall b
      ensures Look(Associate(ns, defs), b) == Resolved(shared, files, [next] + chain, name, b)
    {
      assert Look(ns, b) == Resolved(shared, files, chain, name, b);
      if b in defs && defs[b].blank {
        NearestDefines(files, chain, name, b);
      }
    }
  }

  lemma {:induction false} NearestDefines(files: Files, chain: seq<string>, name: string, b: string)
    requires forall k :: 0 <= k < |chain| ==> chain[k] in files
    ensures Nearest(files, chain, name, b).Some? ==> Furthest(files, chain, name, b).Some?
  {
    if chain != [] {
      NearestDefines(files, chain[1..], name, b);
    }
  }

  /** The file extends nothing, and its text, or a block it defines, is this. */
  ghost predicate Gives(f: File, name: string, b: string, body: Body) {
    f.layout == "" && if b == name then body == f.main else b in f.defines && f.defines[b] == body
  }

  /** The body is there before, or some file among these that extends nothing gives it. */
  ghost predicate Offered(before: Namespace, files: Files, names: seq<string>, b: string, body: Body)
    requires forall k :: 0 <= k < |names| ==> names[k] in files
  {
    Look(before, b) == Some(body)
    || exists k :: 0 <= k < |names| && Gives(files[names[k]], names[k], b, body)
  }

  /** Each block offered is there with one of the bodies offered, a blank one only when all are. */
  ghost predicate Pooled(ns: Namespace, before: Namespace, files: Files, names: seq<string>)
    requires forall k :: 0 <= k < |names| ==> names[k] in files
  {
    && (forall b :: b in ns ==> Offered(before, files, names, b, ns[b]))
    && (forall b, body :: Offered(before, files, names, b, body) ==> b in ns && (ns[b].blank ==> body.blank))
  }

  lemma PooledMore(ns: Namespace, before: Namespace, files: Files, names: seq<string>, next: string)
    requires forall k :: 0 <= k < |names| ==> names[k] in files
    requires next in files && Pooled(ns, before, files, names)
    ensures files[next].layout != "" ==> Pooled(ns, before, files, names + [next])
    ensures files[next].layout == "" ==>
      Pooled(Associate(ns, Definitions(files[next], next)), before, files, names + [next])
  {
    var longer, defs := names + [next], Definitions(files[next], next);
    forall b, body
      ensures Offered(before, files, longer, b, body) <==>
        Offered(before, files, names, b, body) || (files[next].layout == "" && Look(defs, b) == Some(body))
    {
      if Offered(before, files, names, b, body) && Look(before, b) != Some(body) {
        var k :| 0 <= k < |names| && Gives(files[names[k]], names[k], b, body);
        assert longer[k] == names[k];
      }
      assert longer[|names|] == next;
    }
  }

  // ---- what a reader of the files sees

  /** Each file of the path extends the next. */
  ghost predicate Extends(files: Files, path: seq<string>) {
    && path != []
    && (forall k :: 0 <= k < |path| ==> path[k] in files)
    && forall k :: 0 < k < |path| ==> files[path[k - 1]].layout == path[k]
  }

  /** The last file of the path is the first with a text of its own. */
  ghost predicate NearestText(files: Files, path: seq<string>)
    requires Extends(files, path)
  {
    && !files[path[|path| - 1]].main.blank
    && forall k :: 0 <= k < |path| - 1 ==> files[path[k]].main.blank
  }

  /** The last file of the path is the first that puts something in the block. */
  ghost predicate NearestBlock(files: Files, path: seq<string>, b: string)
    requires Extends(files, path)
  {
    && b != path[0]
    && b in files[path[|path| - 1]].defines && !files[path[|path| - 1]].defines[b].blank
    && forall k :: 0 <= k < |path| - 1 ==> b in files[path[k]].defines ==> files[path[k]].defines[b].blank
  }

  /** No file that `name` leads to puts anything in the block. */
  ghost predicate NobodyFills(files: Files, name: string, b: string) {
    forall path :: Extends(files, path) && path[0] == name ==>
      var f := files[path[|path| - 1]];
      if b == name then f.main.blank else b in f.defines ==> f.defines[b].blank
  }

  /** No other text than the one of the file itself goes by its name. */
  ghost predicate OnlyOwnText(before: Namespace, files: Files, name: string) {
    name !in before && forall other :: other in files && other != name && files[other].layout == "" ==>
      name !in files[other].defines
  }

  /** A path goes along the chain. */
  lemma {:induction false} PathIsChain(files: Files, name: string, chain: seq<string>, path: seq<string>)
    requires IsChain(files, name, chain) && Extends(files, path) && path[0] == name
    ensures |path| <= |chain| && path == chain[..|path|]
  {
    PathIsWalk(files, path, |path| - 1);
    if |chain| < |path| {
      PathIsWalk(files, path, |chain|);
    }
    forall k | 0 <= k < |path|
      ensures path[k] == chain[k]
    {
      PathIsWalk(files, path, k);
      assert Ancestor(files, name, k) == Some(chain[k]);
    }
  }

  lemma {:induction false} PathIsWalk(files: Files, path: seq<string>, k: nat)
    requires Extends(files, path) && k < |path|
    ensures Ancestor(files, path[0], k) == Some(path[k])
  {
    if k > 0 {
      PathIsWalk(files, path, k - 1);
      assert files[path[k - 1]].layout == path[k];
    }
  }

  lemma {:induction false} ChainIsPath(files: Files, name: string, chain: seq<string>, k: nat)
    requires IsChain(files, name, chain) && k < |chain|
    ensures Extends(files, chain[..k + 1]) && chain[0] == name
  {
    assert Ancestor(files, name, 0) == Some(chain[0]);
    forall j | 0 <= j <= k
      ensures chain[j] in files
      ensures j > 0 ==> files[chain[j - 1]].layout == chain[j]
    {
      assert Ancestor(files, name, j) == Some(chain[j]);
      if j > 0 {
        assert Ancestor(files, name, j - 1) == Some(chain[j - 1]);
      }
    }
  }

  lemma {:induction false} NearestIs(files: Files, chain: seq<string>, name: string, b: string, k: nat)
    requires forall j :: 0 <= j < |chain| ==> chain[j] in files
    requires k < |chain| && b in Definitions(files[chain[k]], name) && !Definitions(files[chain[k]], name)[b].blank
    requires forall j :: 0 <= j < k ==>
      b in Definitions(files[chain[j]], name) ==> Definitions(files[chain[j]], name)[b].blank
    ensures Nearest(files, chain, name, b) == Some(Definitions(files[chain[k]], name)[b])
  {
    if k > 0 {
      NearestIs(files, chain[1..], name, b, k - 1);
    }
  }

  lemma {:induction false} NearestIsNone(files: Files, chain: seq<string>, name: string, b: string)
    requires forall j :: 0 <= j < |chain| ==> chain[j] in files
    requires forall j :: 0 <= j < |chain| ==>
      b in Definitions(files[chain[j]], name) ==> Definitions(files[chain[j]], name)[b].blank
    ensures Nearest(files, chain, name, b) == None
  {
    if chain != [] {
      NearestIsNone(files, chain[1..], name, b);
    }
  }

  /** A file that extends another: its own text, or else the nearest of those it leads to, stands under its
    * name. */
  lemma ChildText(ns: Namespace, shared: Namespace, files: Files, chain: seq<string>, path: seq<string>)
    requires Extends(files, path) && NearestText(files, path) && IsChain(files, path[0], chain)
    requires Resolves(ns, shared, files, chain, path[0])
    ensures Look(ns, path[0]) == Some(files[path[|path| - 1]].main)
  {
    PathIsChain(files, path[0], chain, path);
    NearestIs(files, chain, path[0], path[0], |path| - 1);
  }

  lemma ChildBlock(ns: Namespace, shared: Namespace, files: Files, chain: seq<string>, path: seq<string>, b: string)
    requires Extends(files, path) && NearestBlock(files, path, b) && IsChain(files, path[0], chain)
    requires Resolves(ns, shared, files, chain, path[0])
    ensures Look(ns, b) == Some(files[path[|path| - 1]].defines[b])
  {
    PathIsChain(files, path[0], chain, path);
    NearestIs(files, chain, path[0], b, |path| - 1);
  }

  lemma ChildShared(ns: Namespace, shared: Namespace, files: Files, chain: seq<string>, name: string, b: string)
    requires IsChain(files, name, chain) && NobodyFills(files, name, b) && b in shared
    requires Resolves(ns, shared, files, chain, name)
    ensures Look(ns, b) == Some(shared[b])
  {
    forall j | 0 <= j < |chain|
      ensures b in Definitions(files[chain[j]], name) ==> Definitions(files[chain[j]], name)[b].blank
    {
      ChainIsPath(files, name, chain, j);
      assert chain[..j + 1][|chain[..j + 1]| - 1] == chain[j];
    }
    NearestIsNone(files, chain, name, b);
  }

  lemma ChildHasText(ns: Namespace, shared: Namespace, files: Files, chain: seq<string>, name: string)
    requires IsChain(files, name, chain) && name in files && Resolves(ns, shared, files, chain, name)
    ensures name in ns
  {
    assert chain != [] && chain[0] in files by {
      assert Ancestor(files, name, 0) == Some(name);
      assert Ancestor(files, name, |chain|) == None;
      if chain != [] {
        ChainIsPath(files, name, chain, 0);
      }
    }
    assert Furthest(files, chain, name, name).Some?;
    assert Look(ns, name) == Resolved(shared, files, chain, name, name);
  }

  datatype Template = Template(name: string, blocks: Namespace)

  class Extemplate {
    var shared: Namespace
    var templates: map<string, Template>

    constructor ()
      ensures shared == map[] && templates == map[]
    {
      shared, templates := map[], map[];
    }

    /** The first loop: the files that extend nothing, in the order of the walk through the map. */
    method ParseRoots(files: Files, order: seq<string>) returns (failed: bool)
      requires forall k :: 0 <= k < |order| ==> order[k] in files
      modifies this`shared
      ensures failed <==> exists k :: 0 <= k < |order| && files[order[k]].layout == "" && !files[order[k]].parses
      ensures !failed ==> Pooled(shared, old(shared), files, order)
    {
      ghost var before := shared;
      for i := 0 to |order|
        invariant forall k :: 0 <= k < i ==> files[order[k]].layout != "" || files[order[k]].parses
        invariant Pooled(shared, before, files, order[..i])
      {
        var tf := files[order[i]];
        PooledMore(shared, before, files, order[..i], order[i]);
        assert order[..i + 1] == order[..i] + [order[i]];
        if tf.layout != "" {
          continue;
        }
        if !tf.parses {
          return true;
        }
        shared := Associate(shared, Definitions(tf, order[i]));
      }
      assert order[..|order|] == order;
      return false;
    }

    /** Parses a chain from its far end down to `name`. */
    method ParseChain(files: Files, chain: seq<string>, name: string) returns (failed: bool, tmpl: Template)
      requires forall k :: 0 <= k < |chain| ==> chain[k] in files
      ensures failed <==> exists k :: 0 <= k < |chain| && !files[chain[k]].parses
      ensures !failed ==> tmpl.name == name && Resolves(tmpl.blocks, shared, files, chain, name)
    {
      tmpl := Template(name, shared);
      assert chain[|chain|..] == [];
      for j := |chain| downto 0
        invariant tmpl.name == name
        invariant Resolves(tmpl.blocks, shared, files, chain[j..], name)
        invariant forall k :: j <= k < |chain| ==> files[chain[k]].parses
      {
        var tf := files[chain[j]];
        if !tf.parses {
          return true, tmpl;
        }
        ResolvesMore(tmpl.blocks, shared, files, chain[j + 1..], name, chain[j]);
        assert [chain[j]] + chain[j + 1..] == chain[j..];
        tmpl := tmpl.(blocks := Associate(tmpl.blocks, Definitions(tf, name)));
      }
      assert chain[0..] == chain;
      return false, tmpl;
    }

    /** What the second loop leaves for a file. */
    ghost predicate Right(files: Files, name: string)
      reads this
      requires name in files
    {
      && name in templates && templates[name].name == name
      && if files[name].layout == "" then templates[name].blocks == shared
         else exists chain: seq<string> ::
                && IsChain(files, name, chain)
                && Resolves(templates[name].blocks, shared, files, chain, name)
    }

    /** ParseDir on the files found, walking through their map in the two orders given. It fails exactly
      * when some file does not parse; else every template is there, and each block of it resolves along
      * the chain of its layouts. A chain that goes round would keep it from ever returning. */
    method ParseDir(files: Files, first: seq<string>, second: seq<string>) returns (failed: bool)
      requires "" !in files
      requires forall name :: name in files <==> name in first
      requires forall name :: name in files <==> name in second
      requires forall name :: name in files ==> Ends(files, name)
      modifies this
      ensures failed <==> exists name :: name in files && !files[name].parses
      ensures !failed ==> forall name :: name in files ==> Right(files, name)
      ensures !failed ==> Pooled(shared, old(shared), files, first)
      ensures !failed ==> forall name :: name in files ==>
        && name in templates && templates[name].name == name && name in templates[name].blocks
        && (files[name].layout == "" && OnlyOwnText(old(shared), files, name) ==>
              templates[name].blocks[name] == files[name].main)
      ensures !failed ==> forall path :: Extends(files, path) && files[path[0]].layout != "" ==>
        && (NearestText(files, path) ==> Look(Blocks(path[0]), path[0]) == Some(files[path[|path| - 1]].main))
        && (forall b :: NearestBlock(files, path, b) ==>
              Look(Blocks(path[0]), b) == Some(files[path[|path| - 1]].defines[b]))
      ensures !failed ==> forall name, b ::
        name in files && files[name].layout != "" && NobodyFills(files, name, b) && b in shared ==>
          Look(Blocks(name), b) == Some(shared[b])
    {
      failed := ParseRoots(files, first);
      if failed {
        return;
      }
      ghost var pool := shared;
      for i := 0 to |second|
        invariant shared == pool
        invariant forall k :: 0 <= k < i ==> Right(files, second[k]) && files[second[k]].parses
      {
        failed := ParseOne(files, second[i]);
        if failed {
          return;
        }
      }
      ReadersView(files, first, old(shared));
    }

    ghost function Blocks(name: string): Namespace
      reads this
    {
      if name in templates then templates[name].blocks else map[]
    }

    lemma ReadersView(files: Files, first: seq<string>, before: Namespace)
      requires forall name :: name in files <==> name in first
      requires (forall name :: name in files ==> Right(files, name)) && Pooled(shared, before, files, first)
      ensures forall name :: name in files ==>
        && name in templates && templates[name].name == name && name in templates[name].blocks
        && (files[name].layout == "" && OnlyOwnText(before, files, name) ==>
              templates[name].blocks[name] == files[name].main)
      ensures forall path :: Extends(files, path) && files[path[0]].layout != "" ==>
        && (NearestText(files, path) ==> Look(Blocks(path[0]), path[0]) == Some(files[path[|path| - 1]].main))
        && (forall b :: NearestBlock(files, path, b) ==>
              Look(Blocks(path[0]), b) == Some(files[path[|path| - 1]].defines[b]))
      ensures forall name, b ::
        name in files && files[name].layout != "" && NobodyFills(files, name, b) && b in shared ==>
          Look(Blocks(name), b) == Some(shared[b])
    {
      forall name | name in files
        ensures name in Blocks(name)
        ensures files[name].layout == "" && OnlyOwnText(before, files, name) ==> Blocks(name)[name] == files[name].main
      {
        if files[name].layout == "" {
          RootText(files, first, before, name);
        } else {
          var chain :| IsChain(files, name, chain) && Resolves(templates[name].blocks, shared, files, chain, name);
          ChildHasText(templates[name].blocks, shared, files, chain, name);
        }
      }
      forall path | Extends(files, path) && files[path[0]].layout != ""
        ensures NearestText(files, path) ==> Look(Blocks(path[0]), path[0]) == Some(files[path[|path| - 1]].main)
        ensures forall b :: NearestBlock(files, path, b) ==>
          Look(Blocks(path[0]), b) == Some(files[path[|path| - 1]].defines[b])
      {
        var name := path[0];
        var chain :| IsChain(files, name, chain) && Resolves(templates[name].blocks, shared, files, chain, name);
        if NearestText(files, path) {
          ChildText(templates[name].blocks, shared, files, chain, path);
        }
        forall b | NearestBlock(files, path, b) {
          ChildBlock(templates[name].blocks, shared, files, chain, path, b);
        }
      }
      forall name, b | name in files && files[name].layout != "" && NobodyFills(files, name, b) && b in shared
        ensures Look(Blocks(name), b) == Some(shared[b])
      {
        var chain :| IsChain(files, name, chain) && Resolves(templates[name].blocks, shared, files, chain, name);
        ChildShared(templates[name].blocks, shared, files, chain, name, b);
      }
    }

    lemma RootText(files: Files, first: seq<string>, before: Namespace, name: string)
      requires forall k :: 0 <= k < |first| ==> first[k] in files
      requires name in first && name in files && files[name].layout == "" && Pooled(shared, before, files, first)
      ensures name in shared
      ensures OnlyOwnText(before, files, name) ==> shared[name] == files[name].main
    {
      var k :| 0 <= k < |first| && first[k] == name;
      assert Gives(files[first[k]], first[k], name, files[name].main);
      assert Offered(before, files, first, name, files[name].main);
      assert Offered(before, files, first, name, shared[name]);
    }

    /** One turn of the second loop. */
    method ParseOne(files: Files, name: string) returns (failed: bool)
      requires name in files && Ends(files, name)
      requires files[name].layout == "" ==> files[name].parses
      modifies this`templates
      ensures failed ==> exists other :: other in files && !files[other].parses
      ensures !failed ==> Right(files, name) && files[name].parses
      ensures !failed ==> templates == old(templates)[name := templates[name]]
      ensures !failed ==> forall other :: other in files && other != name && old(Right(files, other)) ==>
        Right(files, other)
    {
      if files[name].layout == "" {
        templates := templates[name := Template(name, shared)];
        return false;
      }
      var chain := Chain(files, name);
      var tmpl;
      failed, tmpl := ParseChain(files, chain, name);
      if !failed {
        templates := templates[name := tmpl];
      }
    }
  }
}
