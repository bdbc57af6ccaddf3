/** Blocks and their hashes.

    A hash is a free constructor over the block it commits to, so two blocks with
    one hash are one block and no block is its own ancestor.  `Foreign` hashes are
    those that no block of the model has, such as the parent of the genesis block.
 */
module Blocks {

  datatype Block = Block(parentHash: BlockHash, number: nat, payload: nat)
  {
    function Hash(): BlockHash { HashOf(this) }
  }

  datatype BlockHash = HashOf(block: Block) | Foreign(id: nat)

  datatype Option<+T> = None | Some(value: T)

  datatype NumHash = NumHash(number: nat, hash: BlockHash)

  /** The hash a block's hash commits to as its parent. */
  function ParentOf(h: BlockHash): BlockHash {
    match h
    case HashOf(b) => b.parentHash
    case Foreign(_) => h
  }

  function NumberOf(h: BlockHash): nat {
    match h
    case HashOf(b) => b.number
    case Foreign(_) => 0
  }

  /** The number and hash a block names as its parent's; the number does not fall below zero. */
  function ParentNumHash(b: Block): NumHash {
    NumHash(if b.number == 0 then 0 else b.number - 1, b.parentHash)
  }

  /** The number of ancestors the hash commits to. */
  ghost function Depth(h: BlockHash): nat
    decreases h
  {
    match h
    case HashOf(b) => 1 + Depth(b.parentHash)
    case Foreign(_) => 0
  }

  function Hashes(bs: seq<Block>): set<BlockHash> {
    set b | b in bs :: b.Hash()
  }

  function Elements(s: seq<BlockHash>): set<BlockHash> {
    set h | h in s
  }

  ghost predicate NoDuplicates<T>(s: seq<T>) {
    forall i, j :: 0 <= i < j < |s| ==> s[i] != s[j]
  }

  /** No block of the sequence comes after one of its children. */
  ghost predicate ParentsFirst(bs: seq<Block>) {
    forall i, j :: 0 <= i < |bs| && 0 <= j < |bs| && bs[j].parentHash == bs[i].Hash() ==> i < j
  }
}

/** Maps from a key to the non-empty set of members with that key, as both the
    block buffer and the block indices keep them. */
module Grouping {

  ghost predicate Groups<K, V>(index: map<K, set<V>>, members: set<V>, key: V -> K) {
    && (forall k :: k in index ==> index[k] != {})
    && (forall k, v :: k in index && v in index[k] ==> v in members && key(v) == k)
    && (forall v :: v in members ==> key(v) in index && v in index[key(v)])
  }

  /** `entry(k).or_default().insert(v)` */
  function Add<K, V>(index: map<K, set<V>>, k: K, v: V): map<K, set<V>> {
    index[k := (if k in index then index[k] else {}) + {v}]
  }

  /** Remove `v` from the set under `k`, and the set with it when nothing is left. */
  function Remove<K, V>(index: map<K, set<V>>, k: K, v: V): map<K, set<V>> {
    if k !in index then index
    else if index[k] - {v} == {} then index - {k}
    else index[k := index[k] - {v}]
  }

  lemma AddKeepsGroups<K, V>(index: map<K, set<V>>, members: set<V>, key: V -> K, v: V)
    requires Groups(index, members, key)
    ensures Groups(Add(index, key(v), v), members + {v}, key)
  {
    var after := Add(index, key(v), v);
    forall w | w in members + {v}
      ensures key(w) in after && w in after[key(w)]
    {
    }
  }

  lemma RemoveKeepsGroups<K, V>(index: map<K, set<V>>, members: set<V>, key: V -> K, v: V)
    requires Groups(index, members, key)
    ensures Groups(Remove(index, key(v), v), members - {v}, key)
  {
    var k := key(v);
    var after := Remove(index, k, v);
    forall w | w in members - {v}
      ensures key(w) in after && w in after[key(w)]
    {
      assert w in index[key(w)];
      if key(w) == k {
        assert w in index[k] - {v};
      }
    }
  }

  lemma DropKeyKeepsGroups<K, V>(index: map<K, set<V>>, members: set<V>, key: V -> K, k: K)
    requires Groups(index, members, key) && k in index
    ensures Groups(index - {k}, members - index[k], key)
  {
    var after, left := index - {k}, members - index[k];
    forall v | v in left
      ensures key(v) in after && v in after[key(v)]
    {
      assert v in index[key(v)];
    }
    forall j, v | j in after && v in after[j]
      ensures v in left && key(v) == j
    {
      assert v in index[j];
      assert v in index[k] ==> key(v) == k;
    }
  }

  /** The members and their keys determine the map. */
  lemma GroupsUnique<K, V>(a: map<K, set<V>>, b: map<K, set<V>>, members: set<V>, key: V -> K)
    requires Groups(a, members, key) && Groups(b, members, key)
    ensures a == b
  {
    forall k | k in a
      ensures k in b && a[k] == b[k]
    {
      var v :| v in a[k];
      assert key(v) == k && v in b[key(v)];
      assert forall w :: w in a[k] ==> w in members && key(w) == k && w in b[key(w)];
      assert forall w :: w in b[k] ==> w in members && key(w) == k && w in a[key(w)];
    }
    forall k | k in b
      ensures k in a
    {
      var v :| v in b[k];
      assert key(v) in a;
    }
  }
}
