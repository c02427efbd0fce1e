// The operator trie: keys stored by mutating shared nodes, looked up by maximal munch.
module TokenTries {

  type Byte = n: nat | n < 256
  type Key = seq<Byte>

  datatype TokenType = Error | Operator(code: nat)

  class TokenTrie {
    var token: TokenType
    // Empty until a longer key comes through, then one node for every byte.
    var children: seq<TokenTrie>
    ghost var Repr: set<TokenTrie>
    ghost var Keys: map<Key, TokenType>

    ghost predicate Valid()
      reads this, Repr
      decreases Repr
    {
      && this in Repr
      && (children == [] || |children| == 256)
      && (forall c :: 0 <= c < |children| ==>
            children[c] in Repr && children[c].Repr <= Repr && this !in children[c].Repr && children[c].Valid())
      && ChildrenApart()
      && KeysMatch()
    }

    ghost predicate ChildrenApart()
      reads this, children
    {
      forall c, d :: 0 <= c < d < |children| ==> children[c].Repr !! children[d].Repr
    }

    /** The keys are the node's own token and those of the children, a byte longer. */
    ghost predicate KeysMatch()
      reads this, children
    {
      && (children == [] || |children| == 256)
      && (token != Error <==> [] in Keys) && (token != Error ==> Keys[[]] == token)
      && (forall k :: k in Keys && k != [] ==>
            children != [] && k[1..] in children[k[0]].Keys && Keys[k] == children[k[0]].Keys[k[1..]])
      && (forall c, k :: 0 <= c < |children| && k in children[c].Keys ==> [c] + k in Keys)
    }

    constructor ()
      ensures Valid() && fresh(Repr) && Keys == map[]
    {
      token, children := Error, [];
      Repr, Keys := {this}, map[];
    }

    /** The longest stored key that begins at pos, and where it ends. */
    method Get(code: Key, pos: nat) returns (t: TokenType, end: nat)
      requires Valid() && pos <= |code|
      ensures pos <= end <= |code|
      ensures t != Error ==> code[pos..end] in Keys && Keys[code[pos..end]] == t
      ensures t == Error ==> end == pos && code[pos..pos] !in Keys
      ensures forall e :: end < e <= |code| ==> code[pos..e] !in Keys
      decreases |code| - pos
    {
      hide KeysMatch;
      assert code[pos..pos] == [];
      OwnKeys();
      if pos >= |code| || children == [] {
        forall e | pos < e <= |code| ensures code[pos..e] !in Keys {
          assert code[pos..e] != [];
        }
        return token, pos;
      }
      var c := code[pos];
      t, end := children[c].Get(code, pos + 1);
      ChildKeys(code, pos);
      if t != Error {
        assert [c] + code[pos + 1..end] == code[pos..end];
        return t, end;
      }
      return token, pos;
    }

    lemma OwnKeys()
      requires Valid()
      ensures token != Error <==> [] in Keys
      ensures token != Error ==> Keys[[]] == token
      ensures children == [] ==> forall k :: k in Keys ==> k == []
    {
    }

    /** A longer key is stored here exactly when its tail is stored in the child. */
    lemma ChildKeys(code: Key, pos: nat)
      requires Valid() && pos < |code| && children != []
      ensures forall e :: pos < e <= |code| ==>
        (code[pos..e] in Keys <==> code[pos + 1..e] in children[code[pos]].Keys)
      ensures forall e :: pos < e <= |code| && code[pos..e] in Keys ==>
        Keys[code[pos..e]] == children[code[pos]].Keys[code[pos + 1..e]]
    {
      forall e | pos < e <= |code|
        ensures code[pos..e] == [code[pos]] + code[pos + 1..e] && code[pos..e][1..] == code[pos + 1..e] {}
    }

    method Put(key: Key, t: TokenType)
      requires Valid() && t != Error
      modifies Repr
      ensures Valid() && fresh(Repr - old(Repr))
      ensures Keys == old(Keys)[key := t]
      decreases |key|, 1
    {
      if key == [] {
        token := t;
        Keys := Keys[[] := t];
        return;
      }
      if children == [] {
        GrowChildren();
      }
      PutInChild(key, t);
    }

    /** A node for every byte. */
    method GrowChildren()
      requires Valid() && children == []
      modifies this
      ensures Valid() && fresh(Repr - old(Repr)) && children != []
      ensures Keys == old(Keys) && token == old(token)
    {
      var nodes: seq<TokenTrie> := [];
      ghost var all: set<TokenTrie> := {};
      while |nodes| < 256
        invariant |nodes| <= 256
        invariant forall c :: 0 <= c < |nodes| ==>
          nodes[c] in all && nodes[c].Repr <= all && nodes[c].Valid() && nodes[c].Keys == map[] && fresh(nodes[c].Repr)
        invariant forall c, d :: 0 <= c < d < |nodes| ==> nodes[c].Repr !! nodes[d].Repr
        invariant fresh(all) && this !in all
        invariant Valid() && children == [] && Keys == old(Keys) && token == old(token) && Repr == old(Repr)
      {
        var node := new TokenTrie();
        nodes, all := nodes + [node], all + node.Repr;
      }
      children := nodes;
      Repr := Repr + all;
    }

    method PutInChild(key: Key, t: TokenType)
      requires Valid() && t != Error && key != [] && children != []
      modifies Repr
      ensures Valid() && fresh(Repr - old(Repr))
      ensures Keys == old(Keys)[key := t]
      decreases |key|, 0
    {
      hide KeysMatch;
      ghost var nodes := children;
      ghost var below := seq(256, d requires 0 <= d < 256 => old(nodes[d].Keys));
      KeysBelow(below);
      StoreBelow(key[0], key[1..], t);
      RecordKey(key, t, below);
    }

    /** Takes the new nodes into Repr and the new key into Keys. */
    ghost method RecordKey(key: Key, t: TokenType, below: seq<map<Key, TokenType>>)
      requires key != [] && t != Error && |children| == |below| == 256 && this in Repr
      requires ChildrenApart()
      requires forall d :: 0 <= d < 256 ==> children[d].Valid() && this !in children[d].Repr && children[d] in Repr
      requires forall d :: 0 <= d < 256 && d != key[0] ==> children[d].Repr <= Repr
      requires token != Error <==> [] in Keys
      requires token != Error ==> Keys[[]] == token
      requires forall k :: k in Keys && k != [] ==> k[1..] in below[k[0]] && Keys[k] == below[k[0]][k[1..]]
      requires forall c, k :: 0 <= c < 256 && k in below[c] ==> [c] + k in Keys
      requires forall d :: 0 <= d < 256 ==> children[d].Keys == if d == key[0] then below[d][key[1..] := t] else below[d]
      modifies this`Repr, this`Keys
      ensures Valid() && Keys == old(Keys)[key := t] && Repr == old(Repr) + children[key[0]].Repr
    {
      hide KeysMatch;
      Repr := Repr + children[key[0]].Repr;
      Keys := Keys[key := t];
      KeysMoved(key, t, old(Keys), below);
    }

    lemma KeysBelow(below: seq<map<Key, TokenType>>)
      requires Valid() && children != [] && |below| == 256
      requires forall d :: 0 <= d < 256 ==> below[d] == children[d].Keys
      ensures token != Error <==> [] in Keys
      ensures token != Error ==> Keys[[]] == token
      ensures forall k :: k in Keys && k != [] ==> k[1..] in below[k[0]] && Keys[k] == below[k[0]][k[1..]]
      ensures forall c, k :: 0 <= c < 256 && k in below[c] ==> [c] + k in Keys
    {
    }

    /** Puts into one child: the siblings, and this node, are as they were. */
    method StoreBelow(b: Byte, key: Key, t: TokenType)
      requires Valid() && t != Error && children != []
      modifies children[b].Repr
      ensures unchanged(this) && ChildrenApart()
      ensures forall d :: 0 <= d < 256 ==> children[d].Valid() && this !in children[d].Repr
      ensures fresh(children[b].Repr - old(children[b].Repr))
      ensures forall d :: 0 <= d < 256 && d != b ==> children[d].Repr == old(children[d].Repr)
      ensures forall d :: 0 <= d < 256 && d != b ==> children[d].Keys == old(children[d].Keys)
      ensures children[b].Keys == old(children[b].Keys)[key := t]
      decreases |key|, 2
    {
      hide KeysMatch;
      var child := children[b];
      assert forall d :: 0 <= d < 256 && d != b ==> children[d] in children[d].Repr && children[d].Repr !! child.Repr;
      child.Put(key, t);
      assert forall d :: 0 <= d < 256 && d != b ==>
        children[d].Valid() && children[d].Keys == old(children[d].Keys) && children[d].Repr == old(children[d].Repr);
    }

    /** Storing a key in its child and here keeps the two in step. */
    lemma KeysMoved(key: Key, t: TokenType, keys: map<Key, TokenType>, below: seq<map<Key, TokenType>>)
      requires key != [] && t != Error && |children| == |below| == 256
      requires token != Error <==> [] in keys
      requires token != Error ==> keys[[]] == token
      requires forall k :: k in keys && k != [] ==> k[1..] in below[k[0]] && keys[k] == below[k[0]][k[1..]]
      requires forall c, k :: 0 <= c < 256 && k in below[c] ==> [c] + k in keys
      requires Keys == keys[key := t]
      requires forall d :: 0 <= d < 256 ==> children[d].Keys == if d == key[0] then below[d][key[1..] := t] else below[d]
      ensures KeysMatch()
    {
      forall k | k in Keys && k != []
        ensures k[1..] in children[k[0]].Keys && Keys[k] == children[k[0]].Keys[k[1..]]
      {
        assert k == [k[0]] + k[1..] && key == [key[0]] + key[1..];
        if k != key { assert k in keys; }
      }
      forall c, k | 0 <= c < 256 && k in children[c].Keys ensures [c] + k in Keys {
        if c == key[0] && k == key[1..] {
          assert [c] + k == key;
        } else {
          assert k in below[c];
        }
      }
    }
  }

  /** A set of keys and types stored one after another; later entries win. */
  function Stored(pairs: seq<(Key, TokenType)>): map<Key, TokenType> {
    if pairs == [] then map[] else Stored(pairs[..|pairs| - 1])[pairs[|pairs| - 1].0 := pairs[|pairs| - 1].1]
  }

  method FromPairs(pairs: seq<(Key, TokenType)>) returns (trie: TokenTrie)
    requires forall i :: 0 <= i < |pairs| ==> pairs[i].1 != Error
    ensures trie.Valid() && fresh(trie.Repr) && trie.Keys == Stored(pairs)
  {
    trie := new TokenTrie();
    for i := 0 to |pairs|
      invariant trie.Valid() && fresh(trie.Repr) && trie.Keys == Stored(pairs[..i])
    {
      trie.Put(pairs[i].0, pairs[i].1);
      assert pairs[..i + 1][..i] == pairs[..i];
    }
    assert pairs[..|pairs|] == pairs;
  }

  /** Succeeds exactly on the stored keys: the whole string must be munched. */
  method LookUpOperator(lookup: TokenTrie, op: Key) returns (t: TokenType)
    requires lookup.Valid()
    ensures t == if op in lookup.Keys then lookup.Keys[op] else Error
  {
    var found, end := lookup.Get(op, 0);
    assert op[0..|op|] == op;
    if end != |op| {
      return Error;
    }
    return found;
  }
}
