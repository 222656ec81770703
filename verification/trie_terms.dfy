/** Symbolic Merkle Patricia trie nodes and the canonical trie of a map.

    Byte encodings are left out: keccak256 is the free constructor `Digest` over
    node terms, and whether a node's RLP is shorter than 32 bytes is a predicate
    `short` that every definition takes as a parameter.  An equation between
    terms therefore holds for every hash function; a hypothesis that two hashes
    are equal takes the hash to be free of collisions.
 */
module TrieTerms {
  import opened Basics

  type Path = seq<Nibble>

  datatype Hash = EmptyTrieRoot | Digest(node: Node) | Opaque(id: int)

  /** What a leaf carries: an account record, a slot value or raw bytes. */
  datatype Value =
    | AccountValue(nonce: int, balance: int, codeHash: int, storageRoot: Hash)
    | SlotValue(v: int)
    | RawValue(bytes: seq<int>)

  datatype Node =
    | LeafNode(path: Path, value: Value)
    | ExtensionNode(path: Path, child: Ref)
    | BranchNode(children: seq<Ref>, slot: Option<Value>)

  datatype Ref = NoRef | Inline(node: Node) | HashRef(hash: Hash)

  type Encoding = Node -> bool

  /** The cap function: a node shorter than 32 bytes is inlined, another hashed. */
  function Cap(n: Node, short: Encoding): Ref {
    if short(n) then Inline(n) else HashRef(Digest(n))
  }

  function RefOf(n: Option<Node>, short: Encoding): Ref {
    match n
    case None => NoRef
    case Some(node) => Cap(node, short)
  }

  /** The encoding the state-root engine works with: a branch is never inlined. */
  function HashedBranches(short: Encoding): Encoding {
    (n: Node) => !n.BranchNode? && short(n)
  }

  // ----- maps from paths to values ---------------------------------------------

  type Entries = map<Path, Value>

  ghost predicate CommonPrefix(p: Path, m: Entries) {
    forall k :: k in m ==> p <= k
  }

  /** `p` is a prefix of every key and cannot be made longer. */
  ghost predicate LongestCommonPrefix(p: Path, m: Entries) {
    && CommonPrefix(p, m)
    && forall c: Nibble :: !CommonPrefix(p + [c], m)
  }

  /** The entries below prefix `p`, with `p` dropped from their keys. */
  ghost function Strip(m: Entries, p: Path): (r: Entries)
    ensures forall k {:trigger k in r} :: k in r <==> p + k in m
    ensures forall k {:trigger r[k]} :: k in r ==> r[k] == m[p + k]
  {
    var below := set k | k in m && p <= k :: k[|p|..];
    assert forall k :: p + k in m ==> (p + k)[|p|..] == k;
    assert forall k :: k in below ==> p + k in m by {
      forall k | k in below ensures p + k in m {
        var full :| full in m && p <= full && k == full[|p|..];
        assert p + k == full;
      }
    }
    map k | k in below :: m[p + k]
  }

  ghost function Sub(m: Entries, c: Nibble): (r: Entries) {
    Strip(m, [c])
  }

  ghost function MaxLen(s: set<Path>): (r: nat)
    ensures forall k :: k in s ==> |k| <= r
    ensures s != {} ==> exists k :: k in s && |k| == r
  {
    if s == {} then 0
    else
      var k :| k in s;
      var rest := MaxLen(s - {k});
      if |k| >= rest then |k| else rest
  }

  /** A map with two keys has a longest common prefix. */
  lemma {:induction false} PrefixExists(m: Entries, p: Path)
    requires CommonPrefix(p, m)
    requires m.Keys != {} && forall k: Path :: m.Keys != {k}
    ensures exists q :: LongestCommonPrefix(q, m)
    decreases MaxLen(m.Keys) - |p|
  {
    if c: Nibble :| CommonPrefix(p + [c], m) {
      var k :| k in m;
      assert p + [c] <= k;
      PrefixExists(m, p + [c]);
    } else {
      assert LongestCommonPrefix(p, m);
    }
  }

  /** The longest common prefix is unique. */
  lemma PrefixUnique(m: Entries, p: Path, q: Path)
    requires m.Keys != {}
    requires LongestCommonPrefix(p, m) && LongestCommonPrefix(q, m)
    ensures p == q
  {
    var k :| k in m;
    assert p <= k && q <= k;
    if |p| < |q| {
      OneLonger(m, p, q);
    } else if |q| < |p| {
      OneLonger(m, q, p);
    }
  }

  /** Below a longer common prefix a shorter one can be made longer. */
  lemma OneLonger(m: Entries, p: Path, q: Path)
    requires CommonPrefix(q, m) && p <= q && |p| < |q|
    ensures CommonPrefix(p + [q[|p|]], m)
  {
    forall k | k in m ensures p + [q[|p|]] <= k {
      assert q <= k;
    }
  }

  ghost function LongestPrefix(m: Entries): (p: Path)
    requires m.Keys != {} && forall k: Path :: m.Keys != {k}
    ensures LongestCommonPrefix(p, m)
  {
    PrefixExists(m, []);
    var p :| LongestCommonPrefix(p, m);
    p
  }

  /** The canonical trie (Yellow Paper, Appendix D): nothing for the empty map, a
      leaf for one entry, an extension over the longest common prefix, else a
      branch with the sixteen sub-tries and the value whose key ends here. */
  ghost function Canon(m: Entries, short: Encoding): (r: Option<Node>)
    ensures r.None? <==> m.Keys == {}
    decreases MaxLen(m.Keys)
  {
    if m.Keys == {} then None
    else if k :| m.Keys == {k} then Some(LeafNode(k, m[k]))
    else
      var p := LongestPrefix(m);
      if p != [] then
        StripShrinks(m, p);
        Some(ExtensionNode(p, RefOf(Canon(Strip(m, p), short), short)))
      else
        assert forall c: Nibble :: MaxLen(Strip(m, [c]).Keys) < MaxLen(m.Keys) by {
          forall c: Nibble ensures MaxLen(Strip(m, [c]).Keys) < MaxLen(m.Keys) {
            StripShrinks(m, [c]);
          }
        }
        Some(BranchNode(seq(16, (c: Nibble) => RefOf(Canon(Sub(m, c), short), short)),
                        if [] in m then Some(m[[]]) else None))
  }

  lemma StripShrinks(m: Entries, p: Path)
    requires p != []
    requires m.Keys != {} && forall k: Path :: m.Keys != {k}
    ensures MaxLen(Strip(m, p).Keys) < MaxLen(m.Keys)
  {
    var s := Strip(m, p).Keys;
    if s == {} {
      assert m.Keys != {[]};
      var k :| k in m;
      if k == [] {
        var k' :| k' in m && k' != [];
      }
    } else {
      var k :| k in s && |k| == MaxLen(s);
      assert p + k in m.Keys;
    }
  }
}
