/** The binary trie over '0'/'1' strings: nodes linked on the heap, kept as a tree in which every
    prefix has one node of its own. */
module UnibitTrie {
  const LEVEL_SIZE := 2

  predicate IsKey(key: string) { forall i | 0 <= i < |key| :: key[i] == '0' || key[i] == '1' }

  function IndexOf(c: char): int { c as int - '0' as int }

  function Digit(b: int): char { if b == 0 then '0' else '1' }

  class Node {
    var children: seq<Node?>
    var isEndOfWord: bool

    constructor ()
      ensures children == [null, null] && !isEndOfWord
    {
      children, isEndOfWord := [null, null], false;
    }
  }

  class Trie {
    const root: Node
    /** The node of every prefix present. */
    ghost var at: map<string, Node>
    /** Child b of the node of p is the node of p extended by b, if that prefix is present. */
    ghost predicate Linked(p: string, b: int)
      requires p in at
      reads this, at.Values
    {
      && |at[p].children| == LEVEL_SIZE
      && (0 <= b < LEVEL_SIZE ==>
            at[p].children[b] == if p + [Digit(b)] in at then at[p + [Digit(b)]] else null)
    }

    ghost predicate Prefixed(p: string)
      reads this
    {
      IsKey(p) && (p != "" ==> p[..|p| - 1] in at)
    }

    /** No node is shared between two prefixes. */
    ghost predicate Apart(p: string, q: string)
      requires p in at && q in at
      reads this
    {
      at[p] != at[q]
    }

    ghost predicate Valid()
      reads this, at.Values
    {
      && "" in at && at[""] == root
      && (forall p {:trigger Prefixed(p)} | p in at :: Prefixed(p))
      && (forall p, b {:trigger Linked(p, b)} | p in at && 0 <= b < LEVEL_SIZE :: Linked(p, b))
      && (forall p, q {:trigger Apart(p, q)} | p in at && q in at && p != q :: Apart(p, q))
    }

    /** The strings stored. */
    ghost function Keys(): set<string>
      reads this, at.Values
    {
      set p | p in at && at[p].isEndOfWord
    }

    constructor ()
      ensures Valid() && Keys() == {} && fresh(at.Values)
    {
      root := new Node();
      new;
      at := map["" := root];
    }

    /** Makes a node for prefix p + c, whose parent is `parent`. */
    method Grow(parent: Node, ghost p: string, c: char) returns (child: Node)
      requires Valid() && p in at && at[p] == parent && (c == '0' || c == '1') && p + [c] !in at
      modifies this, parent
      ensures Valid() && fresh(child) && at == old(at)[p + [c] := child]
      ensures !child.isEndOfWord && parent.isEndOfWord == old(parent.isEndOfWord)
    {
      ghost var before, name := at, p + [c];
      assert name[..|name| - 1] == p;
      assert Prefixed(p) && Linked(p, IndexOf(c));
      child := new Node();
      parent.children := parent.children[IndexOf(c) := child];
      at := at[name := child];
      forall q | q in at ensures Prefixed(q) {
        if q in before {
          assert old(Prefixed(q));
        }
      }
      forall q, b | q in at && 0 <= b < LEVEL_SIZE ensures Linked(q, b) {
        var next := q + [Digit(b)];
        assert next[..|next| - 1] == q;
        if q in before {
          assert old(Linked(q, b));
          assert q != p ==> old(Apart(q, p));
        } else {
          assert next in before ==> old(Prefixed(next));
        }
      }
      forall q, q' | q in at && q' in at && q != q' ensures Apart(q, q') {
        assert q in before && q' in before ==> old(Apart(q, q'));
      }
    }

    /** Follows key from the root, making the nodes that are missing. */
    method Descend(key: string) returns (current: Node)
      requires Valid() && IsKey(key)
      modifies this, at.Values
      ensures Valid() && key in at && current == at[key]
      ensures fresh(at.Values - old(at.Values)) && Keys() == old(Keys())
    {
      current := root;
      assert key[..0] == "";
      for level := 0 to |key|
        invariant Valid() && key[..level] in at && current == at[key[..level]]
        invariant fresh(at.Values - old(at.Values))
        invariant Keys() == old(Keys())
      {
        var index := IndexOf(key[level]);
        ghost var p := key[..level];
        assert key[..level + 1] == p + [key[level]];
        assert Linked(p, index);
        if current.children[index] == null {
          ghost var keys, before := Keys(), at;
          current := Grow(current, p, key[level]);
          assert forall q | q in before :: q in at && (q in keys <==> at[q].isEndOfWord);
          assert Keys() == keys;
        } else {
          current := current.children[index];
        }
      }
      assert key[..|key|] == key;
    }

    method MarkEnd(node: Node, ghost key: string)
      requires Valid() && key in at && node == at[key]
      modifies node
      ensures Valid() && Keys() == old(Keys()) + {key}
    {
      node.isEndOfWord := true;
      forall p | p in at ensures Prefixed(p) && (p != key ==> at[p] != node) {
        assert old(Prefixed(p)) && (p != key ==> old(Apart(p, key)));
      }
      forall p, b | p in at && 0 <= b < LEVEL_SIZE ensures Linked(p, b) {
        assert old(Linked(p, b));
      }
      forall p, q | p in at && q in at && p != q ensures Apart(p, q) {
        assert old(Apart(p, q));
      }
    }

    method InsertNode(key: string)
      requires Valid() && IsKey(key)
      modifies this, at.Values
      ensures Valid() && Keys() == old(Keys()) + {key}
      ensures fresh(at.Values - old(at.Values))
    {
      var current := Descend(key);
      MarkEnd(current, key);
    }

    method Search(key: string) returns (found: bool)
      requires Valid() && IsKey(key)
      ensures found <==> key in Keys()
    {
      var current := root;
      assert key[..0] == "";
      for level := 0 to |key|
        invariant key[..level] in at && current == at[key[..level]]
      {
        var index := IndexOf(key[level]);
        assert key[..level + 1] == key[..level] + [key[level]];
        assert Linked(key[..level], index);
        if current.children[index] == null {
          AbsentPrefix(key, level + 1);
          return false;
        }
        current := current.children[index];
      }
      assert key[..|key|] == key;
      found := current.isEndOfWord;
    }

    /** A string whose prefix is absent is absent itself. */
    lemma {:induction false} AbsentPrefix(key: string, n: nat)
      requires Valid() && n <= |key| && key[..n] !in at
      ensures key !in at
      decreases |key| - n
    {
      if n < |key| {
        assert key[..n + 1][..n] == key[..n];
        assert key[..n + 1] in at ==> Prefixed(key[..n + 1]);
        AbsentPrefix(key, n + 1);
      } else {
        assert key[..n] == key;
      }
    }
  }

  /** Inserting a list of keys makes exactly those keys findable. */
  method InsertAll(keys: seq<string>) returns (t: Trie)
    requires forall k | k in keys :: IsKey(k)
    ensures fresh(t) && t.Valid() && t.Keys() == set k | k in keys
  {
    t := new Trie();
    for i := 0 to |keys|
      invariant fresh(t) && fresh(t.at.Values) && t.Valid() && t.Keys() == set k | k in keys[..i]
    {
      t.InsertNode(keys[i]);
      assert keys[..i + 1] == keys[..i] + [keys[i]];
    }
    assert keys[..|keys|] == keys;
  }
}
