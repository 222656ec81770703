/** Facts about the canonical trie of a map: how it is built from its sub-tries
    one nibble at a time, and what a node says about the map. */
module Canonical {
  import opened Basics
  import opened TrieTerms

  ghost predicate Splits(m: Entries) {
    m.Keys != {} && forall k: Path :: m.Keys != {k}
  }

  /** Every key starts with nibble `c`. */
  ghost predicate Under(m: Entries, c: Nibble) {
    CommonPrefix([c], m)
  }

  lemma OneEntry(m: Entries, k: Path, short: Encoding)
    requires m.Keys == {k}
    ensures Canon(m, short) == Some(LeafNode(k, m[k]))
  {
    assert forall k': Path :: m.Keys == {k'} ==> k' in m.Keys;
  }

  /** A canonical leaf determines its map. */
  lemma LeafInverse(m: Entries, k: Path, v: Value, short: Encoding)
    requires Canon(m, short) == Some(LeafNode(k, v))
    ensures m == map[k := v]
  {
    assert m.Keys == {k};
  }

  lemma StripTwice(m: Entries, p: Path, q: Path)
    ensures Strip(Strip(m, p), q) == Strip(m, p + q)
  {
    var twice, once := Strip(Strip(m, p), q), Strip(m, p + q);
    forall k: Path
      ensures k in twice <==> k in once
      ensures k in twice ==> twice[k] == once[k]
    {
      assert p + (q + k) == p + q + k;
    }
    assert twice.Keys == once.Keys;
  }

  /** Dropping a shared first nibble drops it from the longest common prefix. */
  lemma PrefixOfSub(m: Entries, c: Nibble)
    requires Splits(m) && Under(m, c)
    ensures Splits(Sub(m, c))
    ensures LongestPrefix(m) == [c] + LongestPrefix(Sub(m, c))
  {
    var s := Sub(m, c);
    var k0 :| k0 in m;
    assert [c] + k0[1..] == k0;
    assert k0[1..] in s;
    forall k: Path ensures s.Keys != {k} {
      assert m.Keys != {[c] + k};
      if k1 :| k1 in m && k1 != [c] + k {
        assert [c] + k1[1..] == k1;
        assert k1[1..] in s && k1[1..] != k;
      }
    }
    var q := LongestPrefix(s);
    forall k | k in m ensures [c] + q <= k {
      assert [c] + k[1..] == k;
      assert k[1..] in s;
    }
    forall d: Nibble ensures !CommonPrefix([c] + q + [d], m) {
      assert !CommonPrefix(q + [d], s);
      var k :| k in s && !(q + [d] <= k);
      assert [c] + k in m;
      assert ([c] + q + [d])[1..] == q + [d] && ([c] + k)[1..] == k;
    }
    PrefixUnique(m, LongestPrefix(m), [c] + q);
  }

  /** A canonical node with one more nibble in front. */
  function Lengthen(c: Nibble, n: Option<Node>, short: Encoding): Option<Node> {
    match n
    case None => None
    case Some(LeafNode(p, v)) => Some(LeafNode([c] + p, v))
    case Some(ExtensionNode(p, r)) => Some(ExtensionNode([c] + p, r))
    case Some(BranchNode(_, _)) => Some(ExtensionNode([c], Cap(n.value, short)))
  }

  /** When all keys share their first nibble, the canonical trie is the one below
      that nibble, lengthened. */
  lemma CanonUnder(m: Entries, c: Nibble, short: Encoding)
    requires Under(m, c)
    ensures Canon(m, short) == Lengthen(c, Canon(Sub(m, c), short), short)
  {
    var s := Sub(m, c);
    if m.Keys == {} {
      assert s.Keys == {};
    } else if k :| m.Keys == {k} {
      assert k in m && [c] <= k;
      assert [c] + k[1..] == k;
      assert s.Keys == {k[1..]} by {
        forall k' ensures k' in s <==> k' == k[1..] {
          assert k' in s <==> [c] + k' == k;
        }
      }
      OneEntry(m, k, short);
      OneEntry(s, k[1..], short);
    } else {
      PrefixOfSub(m, c);
      var q := LongestPrefix(s);
      StripTwice(m, [c], q);
      if q == [] {
        assert [c] + q == [c];
      }
    }
  }

  /** Two occupied nibbles make a branch. */
  lemma CanonBranch(m: Entries, i: Nibble, j: Nibble, short: Encoding)
    requires i != j && Sub(m, i).Keys != {} && Sub(m, j).Keys != {}
    ensures Splits(m) && LongestPrefix(m) == []
    ensures Canon(m, short) ==
            Some(BranchNode(seq(16, (c: Nibble) => RefOf(Canon(Sub(m, c), short), short)),
                            if [] in m then Some(m[[]]) else None))
  {
    var a :| a in Sub(m, i);
    var b :| b in Sub(m, j);
    assert [i] + a in m && [j] + b in m;
    assert ([i] + a)[0] == i && ([j] + b)[0] == j;
    assert [i] + a != [j] + b;
    forall k: Path ensures m.Keys != {k} {
      assert [i] + a in m.Keys && [j] + b in m.Keys;
    }
    var p := LongestPrefix(m);
    assert p <= [i] + a && p <= [j] + b;
  }

  /** What a canonical branch says about its map. */
  lemma BranchInverse(m: Entries, n: Node, short: Encoding)
    requires Canon(m, short) == Some(n) && n.BranchNode?
    ensures n == BranchNode(seq(16, (c: Nibble) => RefOf(Canon(Sub(m, c), short), short)),
                            if [] in m then Some(m[[]]) else None)
    ensures Splits(m) && LongestPrefix(m) == []
  {
  }

  /** Below its longest common prefix a map splits at the first nibble. */
  lemma BelowPrefix(m: Entries)
    requires Splits(m)
    ensures Splits(Strip(m, LongestPrefix(m)))
    ensures LongestPrefix(Strip(m, LongestPrefix(m))) == []
  {
    var p := LongestPrefix(m);
    var s := Strip(m, p);
    var k0 :| k0 in m;
    assert p <= k0 && p + k0[|p|..] == k0;
    assert k0[|p|..] in s;
    forall k: Path ensures s.Keys != {k} {
      assert m.Keys != {p + k};
      if k1 :| k1 in m && k1 != p + k {
        assert p <= k1 && p + k1[|p|..] == k1;
        assert k1[|p|..] in s && k1[|p|..] != k;
      }
    }
    forall d: Nibble ensures !CommonPrefix([] + [d], s) {
      var k :| k in m && !(p + [d] <= k);
      assert p <= k && p + k[|p|..] == k;
      assert k[|p|..] in s;
    }
    PrefixUnique(s, [], LongestPrefix(s));
  }

  lemma CanonExtension(m: Entries, short: Encoding)
    requires Splits(m) && LongestPrefix(m) != []
    ensures Canon(m, short) ==
            Some(ExtensionNode(LongestPrefix(m), RefOf(Canon(Strip(m, LongestPrefix(m)), short), short)))
  {
  }

  lemma CanonAtSplit(m: Entries, short: Encoding)
    requires Splits(m) && LongestPrefix(m) == []
    ensures Canon(m, short).Some? && Canon(m, short).value.BranchNode?
  {
  }

  lemma PrefixHead(m: Entries)
    requires Splits(m) && LongestPrefix(m) != []
    ensures Under(m, LongestPrefix(m)[0])
  {
    var p := LongestPrefix(m);
    forall k | k in m ensures [p[0]] <= k {
      assert p <= k;
    }
  }

  lemma ExtensionSplits(m: Entries, p: Path, r: Ref, short: Encoding)
    requires Canon(m, short) == Some(ExtensionNode(p, r))
    ensures Splits(m) && p == LongestPrefix(m) && p != []
    ensures r == RefOf(Canon(Strip(m, p), short), short)
  {
  }

  /** What a canonical extension says about its map. */
  lemma ExtensionInverse(m: Entries, p: Path, r: Ref, short: Encoding)
    requires Canon(m, short) == Some(ExtensionNode(p, r))
    ensures Splits(m) && p == LongestPrefix(m) && p != []
    ensures Under(m, p[0])
    ensures Canon(Strip(m, p), short).Some? && Canon(Strip(m, p), short).value.BranchNode?
    ensures r == Cap(Canon(Strip(m, p), short).value, short)
  {
    ExtensionSplits(m, p, r, short);
    var s := Strip(m, p);
    BelowPrefix(m);
    CanonAtSplit(s, short);
    PrefixHead(m);
  }

  /** Two keys that part at their second nibble have a branch below the first. */
  lemma PartAtSecond(m: Entries, c: Nibble, i: Nibble, j: Nibble, q: Path, short: Encoding)
    requires i != j && [c, i] + q in m && [c, j] + q in m
    ensures Canon(Sub(m, c), short).Some? && Canon(Sub(m, c), short).value.BranchNode?
  {
    var s := Sub(m, c);
    assert [c] + ([i] + q) == [c, i] + q && [c] + ([j] + q) == [c, j] + q;
    assert [i] + q in s && [j] + q in s;
    assert q in Sub(s, i) && q in Sub(s, j);
    CanonBranch(s, i, j, short);
  }
}
