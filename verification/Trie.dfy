/** The trie of src/util.h: heap-allocated nodes with 95 children each, one per printable character. */
module Tries {
  import opened Wrappers

  const MAX_ELEMENTS := 95

  predicate IsPrintable(c: char) {
    32 <= c as int <= 126
  }

  predicate Printable(s: seq<char>) {
    forall i | 0 <= i < |s| :: IsPrintable(s[i])
  }

  /** conv: it throws, outside of any handler, for other characters. */
  function Conv(c: char): (i: nat)
    requires IsPrintable(c)
    ensures i < MAX_ELEMENTS
  {
    c as int - 32
  }

  class Node<T> {
    const child: array<Node?<T>>
    var element: Option<T>

    constructor ()
      ensures element == None && fresh(child) && child[..] == NoKids<T>()
    {
      child := new Node?<T>[MAX_ELEMENTS](_ => null);
      element := None;
    }
  }

  ghost function NoKids<T>(): (r: seq<Node?<T>>)
    ensures |r| == MAX_ELEMENTS && forall i | 0 <= i < |r| :: r[i] == null
  {
    seq(MAX_ELEMENTS, _ => null)
  }

  /** `tree` maps every path to the node it leads to, `kids` to that node's children. */
  ghost predicate LinkedAt<T>(tree: map<seq<char>, Node<T>>, kids: map<seq<char>, seq<Node?<T>>>, p: seq<char>) {
    && p in kids && |kids[p]| == MAX_ELEMENTS
    && forall c | IsPrintable(c) :: kids[p][Conv(c)] == if p + [c] in tree then tree[p + [c]] else null
  }

  ghost predicate Shape<T>(tree: map<seq<char>, Node<T>>, kids: map<seq<char>, seq<Node?<T>>>) {
    && [] in tree
    && (forall p | p in tree && p != [] :: p[..|p| - 1] in tree)
    && (forall p | p in tree :: LinkedAt(tree, kids, p))
  }

  lemma ExtendInjective(p: seq<char>, c: char, q: seq<char>, d: char)
    ensures p + [c] == q + [d] ==> p == q && c == d
  {
    assert (p + [c])[..|p|] == p && (q + [d])[..|q|] == q;
    assert (p + [c])[|p|] == c && (q + [d])[|q|] == d;
  }

  /** Attaching a childless node at a new path keeps the shape. */
  lemma AttachShape<T>(tree: map<seq<char>, Node<T>>, kids: map<seq<char>, seq<Node?<T>>>,
                       path: seq<char>, c: char, n: Node<T>)
    requires Shape(tree, kids) && path in tree && IsPrintable(c) && path + [c] !in tree
    ensures LinkedAt(tree, kids, path)
    ensures Shape(tree[path + [c] := n], kids[path := kids[path][Conv(c) := n]][path + [c] := NoKids()])
  {
    var t1, k1 := tree[path + [c] := n], kids[path := kids[path][Conv(c) := n]][path + [c] := NoKids()];
    assert LinkedAt(tree, kids, path);
    forall p | p in t1 ensures LinkedAt(t1, k1, p) {
      assert p in tree ==> LinkedAt(tree, kids, p);
      forall d | IsPrintable(d) ensures k1[p][Conv(d)] == if p + [d] in t1 then t1[p + [d]] else null {
        ExtendInjective(p, d, path, c);
        if p == path + [c] {
          assert (p + [d])[..|p + [d]| - 1] == p;
        }
      }
    }
    forall p | p in t1 && p != [] ensures p[..|p| - 1] in t1 {
      if p == path + [c] {
        assert p[..|p| - 1] == path;
      }
    }
  }

  lemma PrefixesStored<T>(tree: map<seq<char>, Node<T>>, kids: map<seq<char>, seq<Node?<T>>>, p: seq<char>, k: nat)
    requires Shape(tree, kids) && p in tree && k <= |p|
    ensures p[..k] in tree
    decreases |p| - k
  {
    if k == |p| {
      assert p[..k] == p;
    } else {
      PrefixesStored(tree, kids, p, k + 1);
      var q := p[..k + 1];
      assert q != [] && q[..|q| - 1] in tree;
      assert q[..|q| - 1] == p[..k];
    }
  }

  ghost function Present<T>(vals: map<seq<char>, Option<T>>): map<seq<char>, T> {
    map p | p in vals && vals[p].Some? :: vals[p].value
  }

  lemma PresentNone<T>(vals: map<seq<char>, Option<T>>, p: seq<char>)
    requires p !in vals
    ensures Present(vals[p := None]) == Present(vals)
  {
  }

  lemma PresentSome<T>(vals: map<seq<char>, Option<T>>, p: seq<char>, value: T)
    ensures Present(vals[p := Some(value)]) == Present(vals)[p := value]
  {
  }

  ghost function KidsOf<T>(tree: map<seq<char>, Node<T>>): map<seq<char>, seq<Node?<T>>>
    reads set p | p in tree :: tree[p].child
  {
    map p | p in tree :: tree[p].child[..]
  }

  ghost function ValsOf<T>(tree: map<seq<char>, Node<T>>): map<seq<char>, Option<T>>
    reads set p | p in tree :: tree[p]
  {
    map p | p in tree :: tree[p].element
  }

  lemma KidsGrow<T>(tree: map<seq<char>, Node<T>>, path: seq<char>, n: Node<T>)
    ensures KidsOf(tree[path := n]) == KidsOf(tree)[path := n.child[..]]
  {
  }

  lemma ValsGrow<T>(tree: map<seq<char>, Node<T>>, path: seq<char>, n: Node<T>)
    ensures ValsOf(tree[path := n]) == ValsOf(tree)[path := n.element]
  {
  }

  lemma EmptyShape<T>(n: Node<T>)
    requires n.child[..] == NoKids<T>() && n.element == None
    ensures Shape(map[[] := n], KidsOf(map[[] := n]))
    ensures Present(ValsOf(map[[] := n])) == map[]
  {
    assert LinkedAt(map[[] := n], KidsOf(map[[] := n]), []);
  }

  class Trie<T> {
    const root: Node<T>
    ghost var tree: map<seq<char>, Node<T>>   // every node, by the path that leads to it
    ghost var paths: map<object, seq<char>>   // and back, for nodes and for their child arrays
    ghost var Repr: set<object>

    ghost predicate Owned()
      reads this
    {
      && Repr == paths.Keys
      && forall p | p in tree ::
           tree[p] in Repr && paths[tree[p]] == p && tree[p].child in Repr && paths[tree[p].child] == p
    }

    ghost function Kids(): map<seq<char>, seq<Node?<T>>>
      requires Owned()
      reads this, Repr
    {
      KidsOf(tree)
    }

    ghost predicate Valid()
      reads this, Repr
    {
      Owned() && this !in Repr && Shape(tree, Kids()) && tree[[]] == root
    }

    ghost function Vals(): map<seq<char>, Option<T>>
      requires Owned()
      reads this, Repr
    {
      ValsOf(tree)
    }

    /** The map that the trie stands for. */
    ghost function Model(): map<seq<char>, T>
      requires Owned()
      reads this, Repr
    {
      Present(Vals())
    }

    constructor ()
      ensures Valid() && Model() == map[] && fresh(Repr)
    {
      var r := new Node<T>();
      root := r;
      tree := map[[] := r];
      paths := map[r := [], r.child := []];
      Repr := {r, r.child};
      new;
      EmptyShape(r);
    }

    /** find: whether the key has a value. */
    method Find(str: seq<char>) returns (found: bool)
      requires Valid() && Printable(str)
      ensures found <==> str in Model()
    {
      hide Shape, Owned, Model;
      var p := root;
      var k := 0;
      assert str[..0] == [] && [] in tree by { EmptyPathStored(); }
      while k < |str|
        invariant k <= |str|
        invariant str[..k] in tree && tree[str[..k]] == p
      {
        ChildIs(str[..k], str[k]);
        assert str[..k + 1] == str[..k] + [str[k]];
        var i := Conv(str[k]);
        if p.child[i] == null {
          NotStored(str, k + 1);
          return false;
        }
        p := p.child[i];
        k := k + 1;
      }
      assert str[..|str|] == str;
      ValueIs(str);
      found := p.element.Some?;
    }

    lemma EmptyPathStored()
      requires Valid()
      ensures [] in tree
    {
    }

    lemma ChildIs(path: seq<char>, c: char)
      requires Valid() && path in tree && IsPrintable(c)
      ensures tree[path].child.Length == MAX_ELEMENTS
      ensures tree[path].child[Conv(c)] == if path + [c] in tree then tree[path + [c]] else null
    {
      assert LinkedAt(tree, Kids(), path);
      assert tree[path].child[..] == Kids()[path];
    }

    lemma NotStored(str: seq<char>, k: nat)
      requires Valid() && k <= |str| && str[..k] !in tree
      ensures str !in Model()
    {
      if str in tree {
        PrefixesStored(tree, Kids(), str, k);
      }
    }

    lemma ValueIs(str: seq<char>)
      requires Valid() && str in tree
      ensures str in Model() <==> tree[str].element.Some?
    {
    }

    /** An assignment to one child pointer, seen on the maps. */
    method SetChild(p: Node<T>, ghost path: seq<char>, i: nat, n: Node<T>)
      requires Owned() && this !in Repr && path in tree && tree[path] == p && i < p.child.Length
      modifies p.child
      ensures Owned() && Kids() == old(Kids())[path := old(Kids())[path][i := n]]
      ensures Vals() == old(Vals())
    {
      p.child[i] := n;
    }

    /** A new node without a value joins the maps. */
    ghost method Register(path: seq<char>, n: Node<T>)
      requires Owned() && path !in tree && n !in Repr && n.child !in Repr && n.element == None
      modifies this`tree, this`paths, this`Repr
      ensures tree == old(tree)[path := n] && Repr == old(Repr) + {n, n.child}
      ensures Owned() && Kids() == old(Kids())[path := n.child[..]]
      ensures Vals() == old(Vals())[path := None]
    {
      hide KidsOf, ValsOf;
      ghost var was := tree;
      tree, paths, Repr := tree[path := n], paths[n := path][n.child := path], Repr + {n, n.child};
      KidsGrow(was, path, n);
      ValsGrow(was, path, n);
    }

    /** p->nodes_[i] = new class_type */
    method Attach(p: Node<T>, ghost path: seq<char>, c: char) returns (n: Node<T>)
      requires Valid() && path in tree && tree[path] == p && IsPrintable(c) && path + [c] !in tree
      requires p.child.Length == MAX_ELEMENTS
      modifies this`tree, this`paths, this`Repr, p.child
      ensures Valid() && fresh(Repr - old(Repr)) && old(Repr) <= Repr
      ensures Model() == old(Model())
      ensures tree == old(tree)[path + [c] := n]
    {
      hide Shape, LinkedAt, Owned, Kids, Vals, Present;
      AttachPoint(path, c);
      PresentNone(Vals(), path + [c]);
      n := new Node<T>();
      AttachShape(tree, Kids(), path, c, n);
      SetChild(p, path, Conv(c), n);
      Register(path + [c], n);
    }

    lemma AttachPoint(path: seq<char>, c: char)
      requires Valid() && path in tree
      ensures [] in tree && tree[path].child in Repr && path + [c] != []
      ensures path in Kids() && Kids()[path] == tree[path].child[..]
      ensures path + [c] in Vals() ==> path + [c] in tree
    {
    }

    /** One step of the descent in insert and operator[]: a missing child is created. */
    method Descend(p: Node<T>, ghost path: seq<char>, c: char) returns (q: Node<T>)
      requires Valid() && path in tree && tree[path] == p && IsPrintable(c)
      modifies this`tree, this`paths, this`Repr, Repr
      ensures Valid() && fresh(Repr - old(Repr)) && old(Repr) <= Repr
      ensures Model() == old(Model())
      ensures path + [c] in tree && tree[path + [c]] == q
    {
      ChildIs(path, c);
      var i := Conv(c);
      if p.child[i] == null {
        q := Attach(p, path, c);
      } else {
        q := p.child[i];
      }
    }

    /** The descent along a key; all nodes on the way exist afterwards. */
    method Reach(str: seq<char>) returns (p: Node<T>)
      requires Valid() && Printable(str)
      modifies this`tree, this`paths, this`Repr, Repr
      ensures Valid() && fresh(Repr - old(Repr)) && old(Repr) <= Repr
      ensures Model() == old(Model())
      ensures str in tree && tree[str] == p
    {
      hide Shape, Owned, Model;
      p := root;
      var k := 0;
      ghost var repr, model := Repr, Model();
      assert str[..0] == [] && [] in tree by { EmptyPathStored(); }
      while k < |str|
        invariant k <= |str|
        invariant Valid() && fresh(Repr - repr) && repr <= Repr
        invariant Model() == model
        invariant str[..k] in tree && tree[str[..k]] == p
      {
        assert str[..k + 1] == str[..k] + [str[k]];
        p := Descend(p, str[..k], str[k]);
        k := k + 1;
      }
      assert str[..|str|] == str;
    }

    /** The value at an existing node changes; every other key keeps what it had. */
    method Assign(p: Node<T>, ghost str: seq<char>, value: T)
      requires Valid() && str in tree && tree[str] == p
      modifies p`element
      ensures Valid() && Model() == old(Model())[str := value]
      ensures p.element == Some(value)
    {
      hide Shape, Present;
      PresentSome(Vals(), str, value);
      ghost var vals, kids := Vals(), Kids();
      p.element := Some(value);
      assert Kids() == kids;
      assert Vals() == vals[str := Some(value)];
    }

    method Insert(str: seq<char>, value: T)
      requires Valid() && Printable(str)
      modifies this`tree, this`paths, this`Repr, Repr
      ensures Valid() && fresh(Repr - old(Repr)) && old(Repr) <= Repr
      ensures Model() == old(Model())[str := value]
    {
      hide Shape;
      var p := Reach(str);
      Assign(p, str, value);
    }

    /** operator[]: a missing value is created as T(); the node that holds the value is returned, as the
        original returns a reference into it. */
    method At(str: seq<char>, default: T) returns (p: Node<T>)
      requires Valid() && Printable(str)
      modifies this`tree, this`paths, this`Repr, Repr
      ensures Valid() && fresh(Repr - old(Repr)) && old(Repr) <= Repr
      ensures Model() == if str in old(Model()) then old(Model()) else old(Model())[str := default]
      ensures str in tree && tree[str] == p && p in Repr && p.element.Some? && p.element.value == Model()[str]
    {
      hide Shape;
      p := Reach(str);
      if p.element.None? {
        Assign(p, str, default);
      }
    }
  }

  // ---------- histories ----------

  /** insert(key, value), operator[](key), and operator[](key) = value. */
  datatype Op<T> = OpInsert(key: seq<char>, value: T) | OpIndex(key: seq<char>) | OpStore(key: seq<char>, value: T)

  function Apply<T>(m: map<seq<char>, T>, op: Op<T>, default: T): map<seq<char>, T> {
    match op
    case OpInsert(key, value) => m[key := value]
    case OpIndex(key) => if key in m then m else m[key := default]
    case OpStore(key, value) => m[key := value]
  }

  function Meaning<T>(m: map<seq<char>, T>, ops: seq<Op<T>>, default: T): map<seq<char>, T> {
    if ops == [] then m else Apply(Meaning(m, ops[..|ops| - 1], default), ops[|ops| - 1], default)
  }

  lemma MeaningStep<T>(m: map<seq<char>, T>, ops: seq<Op<T>>, i: nat, default: T)
    requires i < |ops|
    ensures Meaning(m, ops[..i + 1], default) == Apply(Meaning(m, ops[..i], default), ops[i], default)
  {
    assert ops[..i + 1][..i] == ops[..i];
  }

  /** A store through the reference that operator[] returned. */
  method Store<T>(t: Trie<T>, key: seq<char>, value: T, default: T)
    requires t.Valid() && Printable(key)
    modifies t`tree, t`paths, t`Repr, t.Repr
    ensures t.Valid() && fresh(t.Repr - old(t.Repr)) && old(t.Repr) <= t.Repr
    ensures t.Model() == old(t.Model())[key := value]
  {
    hide Shape, Present, Trie.Owned, Trie.Kids, Trie.Vals;
    ghost var m := t.Model();
    var p := t.At(key, default);
    t.Assign(p, key, value);
    assert (if key in m then m else m[key := default])[key := value] == m[key := value];
  }

  /** A new trie after a history of operations. */
  method Build<T>(ops: seq<Op<T>>, default: T) returns (t: Trie<T>)
    requires forall i | 0 <= i < |ops| :: Printable(ops[i].key)
    ensures t.Valid() && fresh(t) && fresh(t.Repr)
    ensures t.Model() == Meaning(map[], ops, default)
  {
    hide Shape, Present, Trie.Owned, Trie.Kids, Trie.Vals, Apply;
    t := new Trie<T>();
    for i := 0 to |ops|
      invariant t.Valid() && fresh(t) && fresh(t.Repr)
      invariant t.Model() == Meaning(map[], ops[..i], default)
    {
      MeaningStep(map[], ops, i, default);
      Run(t, ops[i], default);
    }
    assert ops[..|ops|] == ops;
  }

  method Run<T>(t: Trie<T>, op: Op<T>, default: T)
    requires t.Valid() && Printable(op.key)
    modifies t`tree, t`paths, t`Repr, t.Repr
    ensures t.Valid() && fresh(t.Repr - old(t.Repr)) && old(t.Repr) <= t.Repr
    ensures t.Model() == Apply(old(t.Model()), op, default)
  {
    hide Shape, Present, Trie.Owned, Trie.Kids, Trie.Vals;
    match op {
      case OpInsert(key, value) => t.Insert(key, value);
      case OpIndex(key) => var _ := t.At(key, default);
      case OpStore(key, value) => Store(t, key, value, default);
    }
  }

  /** find, and operator[] where it found something. */
  method Read<T>(t: Trie<T>, key: seq<char>, default: T) returns (r: Option<T>)
    requires t.Valid() && Printable(key)
    modifies t`tree, t`paths, t`Repr, t.Repr
    ensures t.Valid() && fresh(t.Repr - old(t.Repr)) && old(t.Repr) <= t.Repr
    ensures t.Model() == old(t.Model())
    ensures r == if key in t.Model() then Some(t.Model()[key]) else None
  {
    hide Shape, Present, Trie.Owned, Trie.Kids, Trie.Vals;
    var found := t.Find(key);
    if !found {
      return None;
    }
    var p := t.At(key, default);
    r := Some(p.element.value);
  }

  /** After every history of inserts, accesses and stores, find and operator[] answer with the map that the
      history describes, for every key. */
  method RunAndRead<T>(ops: seq<Op<T>>, default: T, keys: seq<seq<char>>) returns (values: seq<Option<T>>)
    requires forall i | 0 <= i < |ops| :: Printable(ops[i].key)
    requires forall i | 0 <= i < |keys| :: Printable(keys[i])
    ensures |values| == |keys|
    ensures forall i | 0 <= i < |keys| ::
      var m := Meaning(map[], ops, default);
      values[i] == if keys[i] in m then Some(m[keys[i]]) else None
  {
    hide Shape, Present, Trie.Owned, Trie.Kids, Trie.Vals, Meaning;
    var t := Build(ops, default);
    ghost var m := t.Model();
    values := [];
    for i := 0 to |keys|
      invariant |values| == i && t.Valid() && fresh(t) && fresh(t.Repr) && t.Model() == m
      invariant forall j | 0 <= j < i :: values[j] == if keys[j] in m then Some(m[keys[j]]) else None
    {
      var r := Read(t, keys[i], default);
      values := values + [r];
    }
  }
}
