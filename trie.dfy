/**
 * A character trie whose nodes remember the string spelled by their path, and a
 * cursor over it that consumes one character at a time (src/trie.rs).
 *
 * Nodes are values: `TrieNode::add` updates a node and its descendants in place
 * while it recurses, which is modelled by `AddAt`, a function from the old node to
 * the new one. `Trie` and `TrieSearcher` are objects whose fields change.
 */
module CharTrie {
  import opened Wrappers

  /** A `TrieNode`: the string spelled from the root to it, whether a key ends here, and its children. */
  datatype Node = Node(val: string, full: bool, children: map<char, Node>)

  /** `TrieNode::default()`: empty string, not full, no children. */
  const EmptyNode := Node("", false, map[])

  /** `TrieNode::add(curr, key)`: write `curr` into this node, then either mark it full
      (empty key) or descend into the child for the key's first character, creating it
      when it is missing. */
  function AddAt(n: Node, curr: string, key: string): (r: Node)
    ensures r.val == curr
    ensures r.full <==> n.full || key == []
    ensures key == [] ==> r.children == n.children
    ensures key != [] ==> r.children.Keys == n.children.Keys + {key[0]}
    ensures forall c :: c in n.children && (key == [] || c != key[0]) ==> r.children[c] == n.children[c]
    decreases |key|
  {
    if key == [] then n.(val := curr, full := true)
    else
      var child := if key[0] in n.children then n.children[key[0]] else EmptyNode;
      n.(val := curr, children := n.children[key[0] := AddAt(child, curr + [key[0]], key[1..])])
  }

  /** The node reached by following `path` from `n`, if every step has a child. */
  function Lookup(n: Node, path: string): Option<Node>
    decreases |path|
  {
    if path == [] then Some(n)
    else if path[0] in n.children then Lookup(n.children[path[0]], path[1..])
    else None
  }

  /** `TrieNode::get_next`: the child for `c`. */
  function GetNext(n: Node, c: char): (r: Option<Node>)
    ensures r == Lookup(n, [c])
    ensures r.Some? <==> c in n.children
  {
    if c in n.children then Some(n.children[c]) else None
  }

  /** `key` was inserted: its path exists and ends on a full node. */
  predicate Contains(n: Node, key: string) {
    Lookup(n, key).Some? && Lookup(n, key).value.full
  }

  predicate IsPrefix(q: string, key: string) {
    |q| <= |key| && q == key[..|q|]
  }

  /** The trie's invariant: every node stores the string spelled by its path (below `prefix`). */
  ghost predicate PathsSpelled(n: Node, prefix: string) {
    forall q :: Lookup(n, q).Some? ==> Lookup(n, q).value.val == prefix + q
  }

  /** Following p then q is following p + q. */
  lemma {:induction false} LookupAppend(n: Node, p: string, q: string)
    ensures Lookup(n, p + q) == if Lookup(n, p).Some? then Lookup(Lookup(n, p).value, q) else None
    decreases |p|
  {
    if p == [] {
      assert p + q == q;
    } else {
      assert (p + q)[0] == p[0];
      assert (p + q)[1..] == p[1..] + q;
      if p[0] in n.children {
        LookupAppend(n.children[p[0]], p[1..], q);
      }
    }
  }

  /** Nothing is reachable below the empty node. */
  lemma LookupEmptyNode(q: string)
    requires q != []
    ensures Lookup(EmptyNode, q) == None
  {
  }

  /** `add` leaves every path that is not a prefix of the key exactly as it was. */
  lemma {:induction false} AddOffPath(n: Node, curr: string, key: string, q: string)
    requires !IsPrefix(q, key)
    ensures Lookup(AddAt(n, curr, key), q) == Lookup(n, q)
    decreases |key|
  {
    assert q != [];
    if key != [] && q[0] == key[0] {
      var child := if key[0] in n.children then n.children[key[0]] else EmptyNode;
      assert !IsPrefix(q[1..], key[1..]);
      AddOffPath(child, curr + [key[0]], key[1..], q[1..]);
      if key[0] !in n.children {
        LookupEmptyNode(q[1..]);
      }
    }
  }

  /** Along the key's path, `add` leaves a node that spells `curr` plus the path, and
      that is full exactly where the key ends or where a key already ended. */
  lemma {:induction false} AddOnPath(n: Node, curr: string, key: string, q: string)
    requires IsPrefix(q, key)
    ensures Lookup(AddAt(n, curr, key), q).Some?
    ensures Lookup(AddAt(n, curr, key), q).value.val == curr + q
    ensures Lookup(AddAt(n, curr, key), q).value.full <==> q == key || Contains(n, q)
    decreases |key|
  {
    if q == [] {
      assert curr + q == curr;
    } else {
      var child := if key[0] in n.children then n.children[key[0]] else EmptyNode;
      assert q[0] == key[0];
      assert IsPrefix(q[1..], key[1..]);
      AddOnPath(child, curr + [key[0]], key[1..], q[1..]);
      assert curr + [key[0]] + q[1..] == curr + q;
      assert q == key <==> q[1..] == key[1..];
      if key[0] !in n.children {
        assert !Contains(EmptyNode, q[1..]) by {
          if q[1..] != [] { LookupEmptyNode(q[1..]); }
        }
      }
    }
  }

  /** After `add(key)`, following the key reaches a full node that stores `curr + key`. */
  lemma AddFindsKey(n: Node, curr: string, key: string)
    ensures Contains(AddAt(n, curr, key), key)
    ensures Lookup(AddAt(n, curr, key), key).value.val == curr + key
  {
    AddOnPath(n, curr, key, key);
  }

  /** `add(key)` adds exactly `key` to the set of keys: none is lost, none other appears. */
  lemma AddKeys(n: Node, curr: string, key: string, q: string)
    ensures Contains(AddAt(n, curr, key), q) <==> Contains(n, q) || q == key
  {
    if IsPrefix(q, key) {
      AddOnPath(n, curr, key, q);
    } else {
      AddOffPath(n, curr, key, q);
    }
  }

  /** `add` never removes a node: every path that existed still exists. */
  lemma AddKeepsPaths(n: Node, curr: string, key: string, q: string)
    requires Lookup(n, q).Some?
    ensures Lookup(AddAt(n, curr, key), q).Some?
  {
    if IsPrefix(q, key) {
      AddOnPath(n, curr, key, q);
    } else {
      AddOffPath(n, curr, key, q);
    }
  }

  /** `add` preserves the invariant that every node spells its own path. */
  lemma AddPreservesPathsSpelled(n: Node, curr: string, key: string)
    requires PathsSpelled(n, curr)
    ensures PathsSpelled(AddAt(n, curr, key), curr)
  {
    forall q | Lookup(AddAt(n, curr, key), q).Some?
      ensures Lookup(AddAt(n, curr, key), q).value.val == curr + q
    {
      if IsPrefix(q, key) {
        AddOnPath(n, curr, key, q);
      } else {
        AddOffPath(n, curr, key, q);
      }
    }
  }

  /** Re-adding a key that is already present changes nothing, down to structural equality. */
  lemma {:induction false} AddIdempotent(n: Node, curr: string, key: string)
    requires PathsSpelled(n, curr)
    requires Contains(n, key)
    ensures AddAt(n, curr, key) == n
    decreases |key|
  {
    assert Lookup(n, []) == Some(n);
    assert n.val == curr + [];
    if key == [] {
      assert n.full;
    } else {
      var child := n.children[key[0]];
      assert PathsSpelled(child, curr + [key[0]]) by {
        forall q | Lookup(child, q).Some?
          ensures Lookup(child, q).value.val == curr + [key[0]] + q
        {
          assert ([key[0]] + q)[0] == key[0];
          assert ([key[0]] + q)[1..] == q;
          assert Lookup(n, [key[0]] + q) == Lookup(child, q);
          assert curr + ([key[0]] + q) == curr + [key[0]] + q;
        }
      }
      AddIdempotent(child, curr + [key[0]], key[1..]);
      assert n.children[key[0] := child] == n.children;
    }
  }

  /** The empty node spells the empty path and holds no key. */
  lemma EmptyNodeSpelled()
    ensures PathsSpelled(EmptyNode, "")
    ensures forall q :: !Contains(EmptyNode, q)
  {
    forall q | Lookup(EmptyNode, q).Some?
      ensures Lookup(EmptyNode, q).value.val == "" + q
    {
      if q != [] { LookupEmptyNode(q); }
    }
  }

  /** The root built by `Trie::new` over `keys`: every key added in turn from the root. */
  function Build(keys: seq<string>): Node
  {
    if keys == [] then EmptyNode else AddAt(Build(keys[..|keys| - 1]), "", keys[|keys| - 1])
  }

  /** `Trie::new(keys)` holds exactly the given keys, and keeps the invariant. */
  lemma {:induction false} BuildKeys(keys: seq<string>)
    ensures PathsSpelled(Build(keys), "")
    ensures forall q :: Contains(Build(keys), q) <==> q in keys
  {
    if keys == [] {
      EmptyNodeSpelled();
    } else {
      var init := keys[..|keys| - 1];
      BuildKeys(init);
      AddPreservesPathsSpelled(Build(init), "", keys[|keys| - 1]);
      forall q ensures Contains(Build(keys), q) <==> q in keys {
        AddKeys(Build(init), "", keys[|keys| - 1], q);
        assert keys == init + [keys[|keys| - 1]];
      }
    }
  }

  /** `Trie`: owns the root node. */
  class Trie {
    var root: Node

    ghost predicate Valid()
      reads this
    {
      PathsSpelled(root, "")
    }

    /** `Trie::new(keys)`: the default trie, then `add` for each key in order. */
    constructor New(keys: seq<string>)
      ensures Valid()
      ensures root == Build(keys)
      ensures forall q :: Contains(root, q) <==> q in keys
      ensures keys == [] ==> root.children == map[] && !root.full
    {
      root := EmptyNode;
      new;
      EmptyNodeSpelled();
      var i := 0;
      while i < |keys|
        invariant 0 <= i <= |keys|
        invariant Valid() && root == Build(keys[..i])
      {
        assert keys[..i + 1][..i] == keys[..i];
        Add(keys[i]);
        i := i + 1;
      }
      assert keys[..i] == keys;
      BuildKeys(keys);
    }

    /** `Trie::add(key)`: `TrieNode::add` from the root with the empty path. */
    method Add(key: string)
      requires Valid()
      modifies this
      ensures Valid()
      ensures root == AddAt(old(root), "", key)
      ensures forall q :: Contains(root, q) <==> Contains(old(root), q) || q == key
      ensures forall q :: Lookup(old(root), q).Some? ==> Lookup(root, q).Some?
      ensures Lookup(root, key).Some? && Lookup(root, key).value.val == key
      ensures key == [] ==> root.full
      ensures Contains(old(root), key) ==> root == old(root)
    {
      ghost var before := root;
      AddPreservesPathsSpelled(before, "", key);
      AddFindsKey(before, "", key);
      forall q ensures Contains(AddAt(before, "", key), q) <==> Contains(before, q) || q == key {
        AddKeys(before, "", key, q);
      }
      forall q | Lookup(before, q).Some? ensures Lookup(AddAt(before, "", key), q).Some? {
        AddKeepsPaths(before, "", key, q);
      }
      if Contains(before, key) {
        AddIdempotent(before, "", key);
      }
      root := AddAt(root, "", key);
      assert "" + key == key;
    }

    /** `Trie::get_searcher`: a fresh cursor at the root that has consumed nothing. */
    method GetSearcher() returns (s: TrieSearcher)
      requires Valid()
      ensures fresh(s) && s.Valid()
      ensures s.trie == this && s.node == root && s.path == [] && s.Len() == 0
    {
      s := new TrieSearcher(this);
    }
  }

  /** `SearchError`: the only failure of `advance`. */
  datatype SearchError = NoMatch

  /** `TrieSearcher`: the node the cursor stands on and the number of characters consumed.
      The ghost `path` is the string consumed so far; `Valid` ties the node to it. */
  class TrieSearcher {
    const trie: Trie
    var node: Node
    var processedChars: nat
    ghost var path: string

    ghost predicate Valid()
      reads this, trie
    {
      trie.Valid() && Lookup(trie.root, path) == Some(node) && processedChars == |path|
    }

    constructor (trie: Trie)
      requires trie.Valid()
      ensures Valid()
      ensures this.trie == trie && node == trie.root && path == [] && processedChars == 0
    {
      this.trie := trie;
      node := trie.root;
      processedChars := 0;
      path := [];
    }

    /** `TrieSearcher::advance(c)`: step to the child for `c` and report the stored string if
        that child is full, `Ok(None)` if it is only a prefix, or `Err(NoMatch)` without moving. */
    method Advance(c: char) returns (r: Result<Option<string>, SearchError>)
      requires Valid()
      modifies this
      ensures Valid()
      ensures c in old(node).children ==>
        && node == old(node).children[c]
        && path == old(path) + [c]
        && processedChars == old(processedChars) + 1
        && r == Ok(if node.full then Some(path) else None)
      ensures c !in old(node).children ==>
        && r == Err(NoMatch)
        && node == old(node) && path == old(path) && processedChars == old(processedChars)
      ensures r.Ok? && r.value.Some? ==> Contains(trie.root, r.value.value)
    {
      var next := GetNext(node, c);
      if next.Some? {
        LookupAppend(trie.root, path, [c]);
        node := next.value;
        processedChars := processedChars + 1;
        path := path + [c];
        assert Lookup(trie.root, path) == Some(node);
        assert node.val == "" + path == path;
        if node.full {
          r := Ok(Some(node.val));
        } else {
          r := Ok(None);
        }
      } else {
        r := Err(NoMatch);
      }
    }

    /** `TrieSearcher::len`: the number of characters consumed so far. */
    function Len(): (n: nat)
      reads this, trie
      requires Valid()
      ensures n == |path|
    {
      processedChars
    }
  }

  /** A cursor keeps going after a match: over the keys "a" and "ab", the input "ab"
      reports both keys, and a following 'c' fails without moving it. */
  method PrefixKeysExample() {
    var t := new Trie.New(["a", "ab"]);
    assert Contains(t.root, "a") && Contains(t.root, "ab");
    var s := t.GetSearcher();
    var r := s.Advance('a');
    assert r == Ok(Some("a"));
    r := s.Advance('b');
    assert r == Ok(Some("ab"));
    assert Lookup(t.root, "abc") == None;
    r := s.Advance('c');
    assert r == Err(NoMatch) && s.Len() == 2;
  }
}
