/** Values as the objects they are: every node owns the nodes below it, `DeepCopy` builds
    new ones throughout, and `MergeDictionary` changes the receiver in place without
    touching or sharing anything of its argument. */
module ValueHeap {
  import opened Wrappers
  import opened Sequences
  import opened JsonLex
  import opened JsonValue
  import opened ValueTree

  lemma PutLookups(es: seq<Entry>, k: Text, v: Value)
    requires Ascending(es)
    ensures Ascending(Put(es, k, v))
    ensures forall q :: Find(Put(es, k, v), q) == if q == k then Some(v) else Find(es, q)
  {
    PutAscending(es, k, v);
    hide Put, Find, Ascending;
    forall q
      ensures Find(Put(es, k, v), q) == if q == k then Some(v) else Find(es, q)
    {
      FindPut(es, k, v, q);
    }
  }

  lemma EraseLookups(es: seq<Entry>, k: Text)
    requires Ascending(es)
    ensures Ascending(Erase(es, k))
    ensures forall q :: Find(Erase(es, k), q) == if q == k then None else Find(es, q)
  {
    EraseAscending(es, k);
    hide Erase, Find, Ascending;
    forall q
      ensures Find(Erase(es, k), q) == if q == k then None else Find(es, q)
    {
      FindErase(es, k, q);
    }
  }

  lemma {:induction false} EraseAscending(es: seq<Entry>, k: Text)
    requires Ascending(es)
    ensures Ascending(Erase(es, k)) && forall e :: e in Erase(es, k) ==> e in es
  {
    if es != [] {
      AscendingTail(es);
      hide Ascending;
      EraseAscending(es[1..], k);
      assert forall e :: e in es[1..] ==> e in es;
      AscendingCons(es[0], Erase(es[1..], k));
    }
  }

  // a has the entries of b except those still to be done.
  ghost predicate Copied(a: seq<Entry>, b: seq<Entry>, todo: set<Text>) {
    forall q :: Find(a, q) == if q in todo then None else Find(b, q)
  }

  lemma NothingCopied(b: seq<Entry>, todo: set<Text>)
    requires forall q :: q in todo <==> Find(b, q).Some?
    ensures Copied([], b, todo)
  {
  }

  lemma CopiedStep(a: seq<Entry>, b: seq<Entry>, todo: set<Text>, k: Text)
    requires Ascending(a) && Copied(a, b, todo) && k in todo && Find(b, k).Some?
    ensures Copied(Put(a, k, Find(b, k).value), b, todo - {k})
  {
    hide Put, Find, Ascending;
    PutLookups(a, k, Find(b, k).value);
  }

  lemma CopiedAll(a: seq<Entry>, b: seq<Entry>)
    requires Ascending(a) && Ascending(b) && Copied(a, b, {})
    ensures a == b
  {
    hide Find, Ascending;
    SameLookups(a, b);
  }

  // a is what `start` becomes when the entries of b that are not still to be done have
  // been merged into it.
  ghost predicate Merged(a: seq<Entry>, start: seq<Entry>, b: seq<Entry>, todo: set<Text>) {
    forall q :: Find(a, q) == match Find(b, q)
                              case None => Find(start, q)
                              case Some(v) => if q in todo then Find(start, q) else Some(Resolve(Find(start, q), v))
  }

  lemma NothingMerged(a: seq<Entry>, b: seq<Entry>, todo: set<Text>)
    requires forall q :: q in todo <==> Find(b, q).Some?
    ensures Merged(a, a, b, todo)
  {
  }

  lemma MergedStep(a: seq<Entry>, start: seq<Entry>, b: seq<Entry>, todo: set<Text>, k: Text)
    requires Ascending(a) && Merged(a, start, b, todo) && k in todo && Find(b, k).Some?
    ensures Merged(Put(a, k, Resolve(Find(a, k), Find(b, k).value)), start, b, todo - {k})
  {
    hide Put, Find, Ascending, Resolve;
    PutLookups(a, k, Resolve(Find(a, k), Find(b, k).value));
  }

  lemma MergedAll(a: seq<Entry>, start: seq<Entry>, b: seq<Entry>)
    requires Ascending(a) && Ascending(start) && Ascending(b) && Merged(a, start, b, {})
    ensures a == Merge(start, b)
  {
    hide Find, Ascending, Resolve, Merge;
    MergeAscending(start, b);
    forall q
      ensures Find(a, q) == Find(Merge(start, b), q)
    {
      MergeResolves(start, b, q);
    }
    SameLookups(a, Merge(start, b));
  }

  // What a node holds, by its type: the list_ of a ListValue, the dictionary_ of a
  // DictionaryValue, or a value without nodes below it.
  datatype Content =
    | Scalar(v: Value)
    | Items(list: seq<ValueNode>)
    | Members(dictionary: map<Text, ValueNode>)

  class ValueNode {
    var content: Content
    ghost var Repr: set<ValueNode>
    ghost var tree: Value               // the abstract value

    ghost predicate Valid()
      reads this, Repr
      decreases Repr
    {
      && this in Repr
      && (content.Scalar? ==> !tree.List? && !tree.Dict? && tree == content.v)
      && (content.Items? ==>
            && tree.List? && |tree.items| == |content.list|
            && (forall i :: 0 <= i < |content.list| ==>
                  var c := content.list[i];
                  c in Repr && c.Repr <= Repr && this !in c.Repr && c.Valid() && tree.items[i] == c.tree)
            && (forall i, j :: 0 <= i < j < |content.list| ==> content.list[i].Repr !! content.list[j].Repr))
      && (content.Members? ==>
            && tree.Dict? && Ascending(tree.entries)
            && (forall k :: k in content.dictionary <==> Find(tree.entries, k).Some?)
            && (forall k :: k in content.dictionary ==>
                  var c := content.dictionary[k];
                  c in Repr && c.Repr <= Repr && this !in c.Repr && c.Valid() && Find(tree.entries, k) == Some(c.tree))
            && (forall j, k :: j in content.dictionary && k in content.dictionary && j != k ==>
                  content.dictionary[j].Repr !! content.dictionary[k].Repr))
    }

    ghost predicate IsDictionary()
      reads this, Repr
    {
      Valid() && content.Members?
    }

    // A child of a dictionary is valid in itself, and a dictionary by its type exactly
    // when it is one by its value.
    lemma Child(k: Text)
      requires IsDictionary() && k in content.dictionary
      ensures var c := content.dictionary[k];
              c.Valid() && c in c.Repr && (c.content.Members? <==> c.tree.Dict?) && Find(tree.entries, k) == Some(c.tree)
    {
      hide Find, Ascending;
    }

    // The other children have nothing to do with the one under k.
    lemma OtherChildren(k: Text)
      requires IsDictionary() && k in content.dictionary
      ensures forall q :: q in content.dictionary && q != k ==>
                var c := content.dictionary[q];
                c.Valid() && c in c.Repr && c.Repr !! content.dictionary[k].Repr
    {
      hide Find, Ascending;
      forall q | q in content.dictionary && q != k
        ensures content.dictionary[q] in content.dictionary[q].Repr
      {
        Child(q);
      }
    }

    // A dictionary, valid but for the child under k, which has changed below and has
    // given away the nodes in `gone`.
    ghost predicate Stale(k: Text, gone: set<ValueNode>)
      reads this, Repr, (if content.Members? && k in content.dictionary then {content.dictionary[k]} else {})
      reads if content.Members? && k in content.dictionary then content.dictionary[k].Repr else {}
    {
      && this in Repr && this !in gone && content.Members? && tree.Dict?
      && var m, es := content.dictionary, tree.entries;
      && k in m && Ascending(es)
      && m[k] in m[k].Repr && this !in m[k].Repr && m[k].Repr !! gone && m[k].Valid()
      && (forall q :: q in m <==> Find(es, q).Some?)
      && (forall q :: q in m && q != k ==>
            m[q] in Repr && m[q].Repr <= Repr && this !in m[q].Repr && m[q].Repr !! gone && m[q].Valid()
            && Find(es, q) == Some(m[q].tree))
      && (forall j, q :: j in m && q in m && j != q ==> m[j].Repr !! m[q].Repr)
    }

    // Bringing the abstract value up to date.
    ghost method Refresh(k: Text, gone: set<ValueNode>)
      requires Stale(k, gone)
      modifies this`tree, this`Repr
      ensures IsDictionary() && Repr == old(Repr) - gone + content.dictionary[k].Repr
      ensures tree == Dict(Put(old(tree.entries), k, content.dictionary[k].tree))
    {
      hide Put, Find, Ascending;
      PutLookups(tree.entries, k, content.dictionary[k].tree);
      Repr := Repr - gone + content.dictionary[k].Repr;
      tree := Dict(Put(tree.entries, k, content.dictionary[k].tree));
    }

    // CreateNullValue and its like.
    constructor OfScalar(v: Value)
      requires !v.List? && !v.Dict?
      ensures Valid() && Repr == {this} && tree == v
    {
      content, Repr, tree := Scalar(v), {this}, v;
    }

    // new ListValue.
    constructor EmptyList()
      ensures Valid() && content.Items? && Repr == {this} && tree == List([])
    {
      content, Repr, tree := Items([]), {this}, List([]);
    }

    // new DictionaryValue.
    constructor EmptyDictionary()
      ensures IsDictionary() && Repr == {this} && tree == Dict([])
    {
      content, Repr, tree := Members(map[]), {this}, Dict([]);
    }

    // ListValue::Append: the list owns the node from now on.
    method Append(c: ValueNode)
      requires Valid() && content.Items? && c.Valid() && c.Repr !! Repr
      modifies this
      ensures Valid() && content.Items? && Repr == old(Repr) + c.Repr && tree == List(old(tree.items) + [c.tree])
    {
      content := Items(content.list + [c]);
      Repr := Repr + c.Repr;
      tree := List(tree.items + [c.tree]);
    }

    // SetWithoutPathExpansion: the dictionary owns the node from now on.
    method SetKey(k: Text, c: ValueNode)
      requires IsDictionary() && c.Valid() && c.Repr !! Repr
      modifies this
      ensures IsDictionary() && Repr == old(Repr) + c.Repr && tree == Dict(Put(old(tree.entries), k, c.tree))
      ensures content.dictionary == old(content.dictionary)[k := c]
    {
      hide Put, Find, Ascending;
      PutLookups(tree.entries, k, c.tree);
      content := Members(content.dictionary[k := c]);
      Repr := Repr + c.Repr;
      tree := Dict(Put(tree.entries, k, c.tree));
    }

    // DeepCopy: new nodes throughout, scalars and list elements included, with the same
    // abstract value.
    method DeepCopy() returns (copy: ValueNode)
      requires Valid()
      ensures copy.Valid() && fresh(copy.Repr) && copy.tree == tree
      decreases Repr, 2
    {
      if content.Scalar? {
        copy := new ValueNode.OfScalar(content.v);
      } else if content.Items? {
        copy := CopyList();
      } else {
        copy := CopyDictionary();
      }
    }

    // ListValue::DeepCopy.
    method CopyList() returns (copy: ValueNode)
      requires Valid() && content.Items?
      ensures copy.Valid() && fresh(copy.Repr) && copy.tree == tree
      decreases Repr, 1
    {
      copy := new ValueNode.EmptyList();
      for i := 0 to |content.list|
        invariant copy.Valid() && fresh(copy.Repr) && copy.content.Items?
        invariant copy.tree.items == tree.items[..i]
      {
        var c := content.list[i].DeepCopy();
        copy.Append(c);
      }
      assert tree.items[..|content.list|] == tree.items;
    }

    // DictionaryValue::DeepCopy.
    method CopyDictionary() returns (copy: ValueNode)
      requires IsDictionary()
      ensures copy.IsDictionary() && fresh(copy.Repr) && copy.tree == tree
      decreases Repr, 1
    {
      hide Put, Find, Ascending, Copied;
      copy := new ValueNode.EmptyDictionary();
      var todo := content.dictionary.Keys;
      NothingCopied(tree.entries, todo);
      while todo != {}
        invariant copy.IsDictionary() && fresh(copy.Repr) && todo <= content.dictionary.Keys
        invariant Copied(copy.tree.entries, tree.entries, todo)
        decreases |todo|
      {
        ghost var _ := Pick(todo);
        var k :| k in todo;
        CopiedStep(copy.tree.entries, tree.entries, todo, k);
        var c := content.dictionary[k].DeepCopy();
        copy.SetKey(k, c);
        todo := todo - {k};
      }
      CopiedAll(copy.tree.entries, tree.entries);
    }

    // MergeDictionary: b's keys, in any order.
    method MergeDictionary(b: ValueNode)
      requires IsDictionary() && b.IsDictionary() && Repr !! b.Repr
      modifies Repr
      ensures IsDictionary() && fresh(Repr - old(Repr)) && Repr !! b.Repr
      ensures tree == Dict(Merge(old(tree.entries), b.tree.entries))
      ensures b.IsDictionary() && b.tree == old(b.tree) && b.Repr == old(b.Repr)
      decreases b.Repr, 1
    {
      hide Put, Find, Ascending, Merge, Resolve, Merged;
      ghost var start := tree.entries;
      var todo := b.content.dictionary.Keys;
      NothingMerged(start, b.tree.entries, todo);
      while todo != {}
        invariant IsDictionary() && fresh(Repr - old(Repr)) && b.IsDictionary() && Repr !! b.Repr
        invariant todo <= b.content.dictionary.Keys
        invariant Merged(tree.entries, start, b.tree.entries, todo)
        decreases |todo|
      {
        ghost var _ := Pick(todo);
        var k :| k in todo;
        MergedStep(tree.entries, start, b.tree.entries, todo, k);
        MergeKey(b, k);
        todo := todo - {k};
      }
      MergedAll(tree.entries, start, b.tree.entries);
    }

    // One round of MergeDictionary.
    method MergeKey(b: ValueNode, k: Text)
      requires IsDictionary() && b.IsDictionary() && Repr !! b.Repr && k in b.content.dictionary
      modifies Repr
      ensures IsDictionary() && fresh(Repr - old(Repr)) && Repr !! b.Repr
      ensures Find(b.tree.entries, k).Some?
      ensures tree == Dict(Put(old(tree.entries), k, Resolve(Find(old(tree.entries), k), Find(b.tree.entries, k).value)))
      decreases b.Repr, 0
    {
      hide Put, Find, Ascending, Merge;
      var bd := b.content.dictionary[k];
      b.Child(k);
      if k in content.dictionary {
        Child(k);
      }
      if bd.content.Members? && k in content.dictionary && content.dictionary[k].content.Members? {
        MergeInto(k, bd);
      } else {
        var c := bd.DeepCopy();
        SetKey(k, c);
      }
    }

    // sub_dict->MergeDictionary.
    method MergeInto(k: Text, bd: ValueNode)
      requires IsDictionary() && bd.IsDictionary() && Repr !! bd.Repr
      requires k in content.dictionary && content.dictionary[k].IsDictionary()
      modifies Repr
      ensures IsDictionary() && fresh(Repr - old(Repr)) && Repr !! bd.Repr
      ensures tree == Dict(Put(old(tree.entries), k, Dict(Merge(old(content.dictionary[k].tree.entries), bd.tree.entries))))
      decreases bd.Repr, 2
    {
      hide Put, Find, Ascending, Merge, Resolve;
      var d := content.dictionary[k];
      OtherChildren(k);
      d.MergeDictionary(bd);
      Refresh(k, {});
    }

    // The node at the path, from dictionary to dictionary.
    ghost function NodeAt(path: Text): (r: ValueNode?)
      requires IsDictionary()
      reads this, Repr
      decreases |path|
    {
      var n := DotAt(path);
      if n == |path| then
        if path in content.dictionary then content.dictionary[path] else null
      else
        var k := path[..n];
        if k in content.dictionary && content.dictionary[k].content.Members? then
          Child(k);
          content.dictionary[k].NodeAt(path[n + 1..])
        else null
    }

    // The answer of a lookup: a node of this tree with the expected value.
    ghost predicate Answers(r: ValueNode?, v: Option<Value>)
      reads this, Repr
    {
      && (r != null <==> v.Some?)
      && (r != null ==> r in Repr && r.Repr <= Repr && r.Valid() && v.value == r.tree)
    }

    // GetWithoutPathExpansion.
    method Lookup(k: Text) returns (r: ValueNode?)
      requires IsDictionary()
      ensures Answers(r, Find(tree.entries, k))
      ensures r == if k in content.dictionary then content.dictionary[k] else null
    {
      hide Find, Ascending;
      r := if k in content.dictionary then content.dictionary[k] else null;
    }

    // Get: the loop that shortens the path, from dictionary to dictionary.
    method GetPath(path: Text) returns (r: ValueNode?)
      requires IsDictionary()
      ensures Answers(r, Get(tree.entries, path)) && r == NodeAt(path)
    {
      hide Find, Ascending, DotAt;
      var currentPath, current := path, this;
      var n := DotAt(currentPath);
      while n != |currentPath|
        invariant n == DotAt(currentPath) && current in Repr && current.Repr <= Repr && current.IsDictionary()
        invariant Get(tree.entries, path) == Get(current.tree.entries, currentPath)
        invariant NodeAt(path) == current.NodeAt(currentPath)
        decreases |currentPath|
      {
        var child := current.Lookup(currentPath[..n]);
        if child == null || !child.content.Members? {
          return null;
        }
        current := child;
        currentPath := currentPath[n + 1..];
        n := DotAt(currentPath);
      }
      r := current.Lookup(currentPath);
    }

    // What a removal hands out: a tree of its own with the expected value.
    ghost predicate HandsOut(r: ValueNode?, v: Option<Value>, was: set<ValueNode>)
      reads this, r, if r == null then {} else r.Repr
    {
      && (r != null <==> v.Some?)
      && (r != null ==> r.Valid() && r.Repr <= was && v.value == r.tree)
      && Repr == was - if r == null then {} else r.Repr
    }

    // RemoveWithoutPathExpansion: the node belongs to the caller from now on.
    method RemoveKey(k: Text) returns (r: ValueNode?)
      requires IsDictionary()
      modifies this
      ensures IsDictionary() && HandsOut(r, Find(old(tree.entries), k), old(Repr))
      ensures tree == if r != null then Dict(Erase(old(tree.entries), k)) else old(tree)
    {
      hide Find, Erase, Ascending;
      EraseLookups(tree.entries, k);
      if k !in content.dictionary {
        return null;
      }
      r := content.dictionary[k];
      Child(k);
      OtherChildren(k);
      content := Members(content.dictionary - {k});
      Repr := Repr - r.Repr;
      tree := Dict(Erase(tree.entries, k));
    }

    // Remove: the way to the parent dictionary as a recursion, as in SetPath.
    method RemovePath(path: Text) returns (r: ValueNode?)
      requires IsDictionary()
      modifies Repr
      ensures IsDictionary()
      ensures match Remove(old(tree.entries), path)
              case None => HandsOut(r, None, old(Repr)) && tree == old(tree)
              case Some(x) => HandsOut(r, Some(x.0), old(Repr)) && tree == Dict(x.1)
      decreases |path|, 0
    {
      hide Find, Erase, Ascending, Put, Remove, DotAt;
      var n := DotAt(path);
      if n == |path| {
        RemoveOne(tree.entries, path);
        r := RemoveKey(path);
      } else {
        RemoveUnfolds(tree.entries, path);
        var k := path[..n];
        if k in content.dictionary {
          Child(k);
        }
        if k !in content.dictionary || !content.dictionary[k].content.Members? {
          return null;
        }
        r := RemoveBelow(k, path[n + 1..]);
      }
    }

    // The step into the dictionary under k.
    method RemoveBelow(k: Text, rest: Text) returns (r: ValueNode?)
      requires IsDictionary() && k in content.dictionary && content.dictionary[k].IsDictionary()
      modifies Repr
      ensures IsDictionary()
      ensures match Remove(old(content.dictionary[k].tree.entries), rest)
              case None => HandsOut(r, None, old(Repr)) && tree == old(tree)
              case Some(x) => HandsOut(r, Some(x.0), old(Repr)) && tree == Dict(Put(old(tree.entries), k, Dict(x.1)))
      decreases |rest|, 1
    {
      hide Find, Erase, Ascending, Put, Remove;
      var d := content.dictionary[k];
      OtherChildren(k);
      r := d.RemovePath(rest);
      if r != null {
        Refresh(k, r.Repr);
      }
    }

    // Set: the loop over the components of the path, as a recursion, because every
    // dictionary on the way changes its abstract value.
    method SetPath(path: Text, c: ValueNode)
      requires IsDictionary() && c.Valid() && c.Repr !! Repr
      modifies Repr
      ensures IsDictionary() && fresh(Repr - old(Repr) - old(c.Repr))
      ensures tree == Dict(Set(old(tree.entries), path, old(c.tree)))
      ensures NodeAt(path) == c && c.Valid() && c.Repr <= Repr
      decreases |path|, 0
    {
      hide Put, Find, Ascending, Set, DotAt;
      SetUnfolds(tree.entries, path, c.tree);
      var n := DotAt(path);
      if n == |path| {
        SetKey(path, c);
      } else {
        var k := path[..n];
        if k in content.dictionary {
          Child(k);
        }
        if k in content.dictionary && content.dictionary[k].content.Members? {
          SetBelow(k, path[n + 1..], c);
        } else {
          SetNew(k, path[n + 1..], c);
        }
      }
    }

    // The step into a new dictionary.
    method SetNew(k: Text, rest: Text, c: ValueNode)
      requires IsDictionary() && c.Valid() && c.Repr !! Repr
      modifies this
      ensures IsDictionary() && fresh(Repr - old(Repr) - old(c.Repr))
      ensures tree == Dict(Put(old(tree.entries), k, Dict(Set([], rest, old(c.tree)))))
      ensures k in content.dictionary && content.dictionary[k].IsDictionary() && content.dictionary[k].NodeAt(rest) == c
      ensures c.Valid() && c.Repr <= Repr
      decreases |rest|, 1
    {
      hide Put, Find, Ascending, Set, NodeAt, DotAt;
      var child := new ValueNode.EmptyDictionary();
      child.SetPath(rest, c);
      SetKey(k, child);
    }

    // The step into an existing dictionary.
    method SetBelow(k: Text, rest: Text, c: ValueNode)
      requires IsDictionary() && c.Valid() && c.Repr !! Repr
      requires k in content.dictionary && content.dictionary[k].IsDictionary()
      modifies Repr
      ensures IsDictionary() && fresh(Repr - old(Repr) - old(c.Repr))
      ensures tree == Dict(Put(old(tree.entries), k, Dict(Set(old(content.dictionary[k].tree.entries), rest, old(c.tree)))))
      ensures k in content.dictionary && content.dictionary[k].IsDictionary() && content.dictionary[k].NodeAt(rest) == c
      ensures c.Valid() && c.Repr <= Repr
      decreases |rest|, 1
    {
      hide Put, Find, Ascending, Set, NodeAt, DotAt;
      var d := content.dictionary[k];
      OtherChildren(k);
      d.SetPath(rest, c);
      Refresh(k, {});
    }
  }

  lemma {:induction false} NoDotNoStart(p: Text)
    requires DotAt(p) == |p|
    ensures LastStart(p) == 0
    decreases |p|
  {
    if p != [] {
      assert p[|p| - 1] != DOT;
      DotAtIs(p[..|p| - 1], |p| - 1);
      NoDotNoStart(p[..|p| - 1]);
    }
  }

  lemma {:induction false} RemoveOne(es: seq<Entry>, p: Text)
    requires DotAt(p) == |p|
    ensures Remove(es, p) == match Find(es, p) case None => None case Some(v) => Some((v, Erase(es, p)))
  {
    NoDotNoStart(p);
    assert p[0..] == p;
  }

  lemma {:induction false} SetUnfolds(es: seq<Entry>, p: Text, v: Value)
    ensures var n := DotAt(p);
            Set(es, p, v) == if n == |p| then Put(es, p, v)
                             else match Find(es, p[..n])
                               case Some(Dict(sub)) => Put(es, p[..n], Dict(Set(sub, p[n + 1..], v)))
                               case _ => Put(es, p[..n], Dict(Set([], p[n + 1..], v)))
  {
    hide Put, Find, DotAt;
  }
}
