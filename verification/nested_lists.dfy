/** Lists inside a transaction: the moving iterator, and the strict reading of access
    lists and authorization lists. */
module NestedLists {
  import opened Basics
  import opened Rlp

  /** The moving iterator over the items of a list. */
  class ListIter {
    var remaining: Bytes

    constructor (payload: Bytes)
      ensures remaining == payload
    {
      remaining := payload;
    }

    /** The next item, with the rest left for later; refuses at the end. */
    method Next() returns (r: Option<Item>)
      modifies this
      ensures r == Decode(old(remaining))
      ensures r.Some? ==> 0 < |r.value.raw| <= |old(remaining)| && remaining == old(remaining)[|r.value.raw|..]
      ensures r.None? ==> remaining == old(remaining)
    {
      RawIsPrefix(remaining);
      r := DecodeItem(remaining);
      if r.Some? { remaining := remaining[|r.value.raw|..]; }
    }
  }

  lemma RawIsPrefix(data: Bytes)
    ensures Decode(data).Some? ==> 0 < |Decode(data).value.raw| <= |data| && Decode(data).value.raw <= data
    ensures Decode(data).Some? ==> |Decode(data).value.payload| <= |Decode(data).value.raw|
  {
  }

  // ----- all items of a list -------------------------------------------------------------------------

  /** The items of a whole list payload; nothing where the iterator halts. */
  function Items(payload: Bytes): Option<seq<Item>> {
    if payload == [] then Some([])
    else
      match Decode(payload)
      case None => None
      case Some(it) =>
        if !(0 < |it.raw| <= |payload|) then None
        else
          match Items(payload[|it.raw|..])
          case None => None
          case Some(rest) => Some([it] + rest)
  }

  function Joined(its: seq<Item>): Bytes {
    if its == [] then [] else its[0].raw + Joined(its[1..])
  }

  /** An item in its one encoding. */
  predicate Canonical(it: Item) {
    it.raw == Encode(it.kind, it.payload) && |it.payload| < MAX_LENGTH
  }

  lemma {:induction false} ItemsJoined(payload: Bytes)
    requires Items(payload).Some? && |payload| < MAX_LENGTH
    ensures Joined(Items(payload).value) == payload
    ensures forall it :: it in Items(payload).value ==> Canonical(it)
    decreases |payload|
  {
    if payload != [] {
      var it := Decode(payload).value;
      RawIsPrefix(payload);
      EncodeDecode(payload);
      var tail := payload[|it.raw|..];
      ItemsJoined(tail);
      assert ([it] + Items(tail).value)[1..] == Items(tail).value;
      assert payload == it.raw + tail;
    }
  }

  lemma {:induction false} ItemsOfJoined(its: seq<Item>)
    requires forall it :: it in its ==> Canonical(it)
    ensures Items(Joined(its)) == Some(its)
    decreases |its|
  {
    if its != [] {
      ItemsOfJoined(its[1..]);
      var it, tail := its[0], Joined(its[1..]);
      assert Canonical(it);
      DecodeEncode(it.kind, it.payload, tail);
      assert (it.raw + tail)[|it.raw|..] == tail;
      RawIsPrefix(it.raw + tail);
      assert its == [it] + its[1..];
    }
  }

  /** Every item satisfies `ok`, read off one at a time. */
  predicate Each(payload: Bytes, ok: Item -> bool) {
    payload == [] ||
    (Decode(payload).Some? &&
     var it := Decode(payload).value;
     0 < |it.raw| <= |payload| && ok(it) && Each(payload[|it.raw|..], ok))
  }

  lemma {:induction false} EachIsAll(payload: Bytes, ok: Item -> bool)
    ensures Each(payload, ok) <==> Items(payload).Some? && forall it :: it in Items(payload).value ==> ok(it)
    decreases |payload|
  {
    if payload != [] && Decode(payload).Some? {
      var it := Decode(payload).value;
      RawIsPrefix(payload);
      var tail := payload[|it.raw|..];
      EachIsAll(tail, ok);
      if Items(tail).Some? {
        var rest := Items(tail).value;
        assert Items(payload) == Some([it] + rest);
        assert it in [it] + rest && forall x :: x in rest ==> x in [it] + rest;
      }
    }
  }

  /** A list in one piece: an item that is all of its bytes. */
  predicate IsList(b: Bytes) {
    Decode(b).Some? && Decode(b).value.kind == List && Decode(b).value.raw == b
  }

  predicate IsBytes(it: Item, n: nat) { it.kind == String && |it.payload| == n }

  predicate IsKey(it: Item) { IsBytes(it, 32) }

  /** An access list entry is an address and a list of 32-byte keys, nothing else. */
  predicate AccessEntry(it: Item) {
    && it.kind == List && Items(it.payload).Some?
    && var parts := Items(it.payload).value;
       && |parts| == 2 && IsBytes(parts[0], 20) && parts[1].kind == List && Each(parts[1].payload, IsKey)
  }

  /** An authorization is a chain id, an address, a nonce, a parity and a signature. */
  predicate Authorization(it: Item) {
    && it.kind == List && Items(it.payload).Some?
    && var parts := Items(it.payload).value;
       |parts| == 6 && TupleFields(parts)
  }

  predicate TupleFields(f: seq<Item>)
    requires |f| == 6
  {
    && Uint(f[0], 32).Some? && IsBytes(f[1], 20) && Uint(f[2], 8).Some?
    && Uint(f[3], 1).Some? && Uint(f[4], 32).Some? && Uint(f[5], 32).Some?
  }

  predicate ListOf(raw: Bytes, ok: Item -> bool) {
    IsList(raw) && Each(Decode(raw).value.payload, ok)
  }

  // ----- the validating loops --------------------------------------------------------------------------

  method CheckKeys(payload: Bytes) returns (ok: bool)
    ensures ok == Each(payload, IsKey)
  {
    var it := new ListIter(payload);
    while it.remaining != []
      invariant Each(payload, IsKey) == Each(it.remaining, IsKey)
      decreases |it.remaining|
    {
      var k := it.Next();
      if k.None? || k.value.kind != String || |k.value.payload| != 32 { return false; }
    }
    ok := true;
  }

  /** The items left for the iterator after the first. */
  lemma ItemsNext(payload: Bytes)
    requires Decode(payload).Some?
    ensures var it := Decode(payload).value;
            && 0 < |it.raw| <= |payload|
            && (Items(payload).Some? <==> Items(payload[|it.raw|..]).Some?)
            && (Items(payload).Some? ==> Items(payload).value == [it] + Items(payload[|it.raw|..]).value)
  {
    RawIsPrefix(payload);
  }

  /** As many items as fields are wanted, then nothing left. */
  method Fields(payload: Bytes, n: nat) returns (r: Option<seq<Item>>)
    ensures r.Some? <==> Items(payload).Some? && |Items(payload).value| == n
    ensures r.Some? ==> r == Items(payload)
  {
    var it := new ListIter(payload);
    var got: seq<Item> := [];
    assert Items(payload).Some? ==> Items(payload).value == [] + Items(payload).value;
    for i := 0 to n
      invariant |got| == i
      invariant Items(payload).Some? <==> Items(it.remaining).Some?
      invariant Items(payload).Some? ==> Items(payload).value == got + Items(it.remaining).value
    {
      ghost var before := it.remaining;
      var x := it.Next();
      if x.None? { return None; }
      ItemsNext(before);
      got := got + [x.value];
    }
    if it.remaining != [] {
      assert Items(it.remaining).Some? ==> |Items(it.remaining).value| > 0;
      return None;
    }
    assert got + [] == got;
    r := Some(got);
  }

  /** Strict access lists: two fields an entry, 20-byte addresses, 32-byte keys. */
  method CheckAccessList(raw: Bytes) returns (ok: bool)
    requires IsList(raw)
    ensures ok == ListOf(raw, AccessEntry)
  {
    var outer := DecodeItem(raw);
    var it := new ListIter(outer.value.payload);
    while it.remaining != []
      invariant Each(outer.value.payload, AccessEntry) == Each(it.remaining, AccessEntry)
      decreases |it.remaining|
    {
      var entry := it.Next();
      if entry.None? || entry.value.kind != List { return false; }
      var parts := Fields(entry.value.payload, 2);
      if parts.None? || parts.value[0].kind != String || |parts.value[0].payload| != 20 { return false; }
      if parts.value[1].kind != List { return false; }
      var keys := CheckKeys(parts.value[1].payload);
      if !keys { return false; }
    }
    ok := true;
  }

  /** Strict authorization lists: six fields of their widths; counts the entries. */
  method CheckAuthorizations(raw: Bytes) returns (count: Option<nat>)
    requires IsList(raw)
    ensures count.Some? <==> ListOf(raw, Authorization)
    ensures count.Some? ==> Items(Decode(raw).value.payload).Some? && count.value == |Items(Decode(raw).value.payload).value|
  {
    var outer := DecodeItem(raw);
    var it := new ListIter(outer.value.payload);
    ghost var whole := Items(it.remaining);
    EachIsAll(it.remaining, Authorization);
    var n: nat := 0;
    while it.remaining != []
      invariant Each(outer.value.payload, Authorization) == Each(it.remaining, Authorization)
      invariant whole.Some? <==> Items(it.remaining).Some?
      invariant whole.Some? ==> |whole.value| == n + |Items(it.remaining).value|
      decreases |it.remaining|
    {
      ghost var before := it.remaining;
      var tuple := it.Next();
      if tuple.None? || tuple.value.kind != List { return None; }
      ItemsNext(before);
      var parts := Fields(tuple.value.payload, 6);
      if parts.None? { return None; }
      var good := CheckTuple(parts.value);
      if !good { return None; }
      n := n + 1;
    }
    count := Some(n);
  }

  method CheckTuple(f: seq<Item>) returns (ok: bool)
    requires |f| == 6
    ensures ok <==> TupleFields(f)
  {
    var chain := AsUint(f[0], 32);
    if chain.None? || f[1].kind != String || |f[1].payload| != 20 { return false; }
    var nonce := AsUint(f[2], 8);
    if nonce.None? || f[3].kind != String || |f[3].payload| > 1 { return false; }
    var parity := AsUint(f[3], 8);
    var r := AsUint(f[4], 32);
    var s := AsUint(f[5], 32);
    ok := parity.Some? && r.Some? && s.Some?;
  }

  // ----- what the checks accept, as bytes -----------------------------------------------------------------

  /** One entry of EIP-2930, one tuple of EIP-7702. */
  datatype Access = Access(address: Bytes, keys: seq<Bytes>)
  datatype Tuple = Tuple(chain: nat, address: Bytes, nonce: nat, parity: nat, r: nat, s: nat)

  function Str(b: Bytes): Item { Item(String, Encode(String, b), b) }
  function Lst(p: Bytes): Item { Item(List, Encode(List, p), p) }
  function Strs(bs: seq<Bytes>): seq<Item> { seq(|bs|, i requires 0 <= i < |bs| => Str(bs[i])) }

  /** `[address, [key, ...]]` */
  function AccessItem(a: Access): Item {
    Lst(Joined([Str(a.address), Lst(Joined(Strs(a.keys)))]))
  }

  /** `[chain id, address, nonce, parity, r, s]` */
  function TupleItem(t: Tuple): Item { Lst(Joined(TupleParts(t))) }

  function TupleParts(t: Tuple): seq<Item> {
    [Str(Minimal(t.chain)), Str(t.address), Str(Minimal(t.nonce)),
     Str(Minimal(t.parity)), Str(Minimal(t.r)), Str(Minimal(t.s))]
  }

  predicate AccessSized(a: Access) {
    |a.address| == 20 && forall i :: 0 <= i < |a.keys| ==> |a.keys[i]| == 32
  }

  /** At most `width` bytes. */
  predicate InWidth(n: nat, width: nat) { n < Pow256(width) }

  predicate TupleSized(t: Tuple) {
    && InWidth(t.chain, 32) && |t.address| == 20 && InWidth(t.nonce, 8) && InWidth(t.parity, 1)
    && InWidth(t.r, 32) && InWidth(t.s, 32)
  }

  lemma LstInside(p: Bytes)
    ensures |p| <= |Lst(p).raw|
  {
  }

  lemma {:induction false} JoinedLonger(its: seq<Item>, i: nat)
    requires i < |its|
    ensures |its[i].raw| <= |Joined(its)|
    decreases i
  {
    if i > 0 { JoinedLonger(its[1..], i - 1); }
  }

  /** Keys read are keys written, both ways. */
  lemma KeysForm(payload: Bytes)
    requires |payload| < MAX_LENGTH && Each(payload, IsKey)
    ensures var its := Items(payload);
            && its.Some? && payload == Joined(Strs(seq(|its.value|, i requires 0 <= i < |its.value| => its.value[i].payload)))
            && forall i :: 0 <= i < |its.value| ==> |its.value[i].payload| == 32
  {
    EachIsAll(payload, IsKey);
    ItemsJoined(payload);
    var its := Items(payload).value;
    var keys := seq(|its|, i requires 0 <= i < |its| => its[i].payload);
    forall i | 0 <= i < |its| ensures its[i] == Str(keys[i]) && |keys[i]| == 32 {
      assert its[i] in its;
      assert IsKey(its[i]) && Canonical(its[i]);
    }
    assert its == Strs(keys);
  }

  lemma KeysAccepted(keys: seq<Bytes>)
    requires forall i :: 0 <= i < |keys| ==> |keys[i]| == 32
    ensures Each(Joined(Strs(keys)), IsKey)
  {
    var its := Strs(keys);
    forall it | it in its ensures Canonical(it) && IsKey(it) {
      var i :| 0 <= i < |its| && its[i] == it;
      assert it == Str(keys[i]);
    }
    ItemsOfJoined(its);
    EachIsAll(Joined(its), IsKey);
  }

  lemma EntryForm(it: Item) returns (a: Access)
    requires Canonical(it) && AccessEntry(it)
    ensures AccessSized(a) && it == AccessItem(a)
  {
    var parts := Items(it.payload).value;
    ItemsJoined(it.payload);
    assert parts[0] in parts && parts[1] in parts;
    assert Canonical(parts[0]) && Canonical(parts[1]);
    KeysForm(parts[1].payload);
    var its := Items(parts[1].payload).value;
    a := Access(parts[0].payload, seq(|its|, i requires 0 <= i < |its| => its[i].payload));
    assert parts == [Str(a.address), Lst(Joined(Strs(a.keys)))];
  }

  lemma EntryAccepted(a: Access)
    requires AccessSized(a) && |AccessItem(a).raw| < MAX_LENGTH
    ensures Canonical(AccessItem(a)) && AccessEntry(AccessItem(a))
  {
    var inner := Joined(Strs(a.keys));
    var parts := [Str(a.address), Lst(inner)];
    LstInside(Joined(parts));
    JoinedLonger(parts, 1);
    LstInside(inner);
    assert Canonical(parts[0]) && Canonical(parts[1]);
    ItemsOfJoined(parts);
    KeysAccepted(a.keys);
  }

  lemma NumberForm(it: Item, width: nat)
    requires Canonical(it) && Uint(it, width).Some?
    ensures InWidth(BeValue(it.payload), width) && it == Str(Minimal(BeValue(it.payload)))
  {
    UintInverse(it, width);
  }

  lemma PartsForm(f: seq<Item>) returns (t: Tuple)
    requires |f| == 6 && TupleFields(f) && forall i :: 0 <= i < 6 ==> Canonical(f[i])
    ensures TupleSized(t) && f == TupleParts(t)
  {
    var chain, nonce, parity, r, s := BeValue(f[0].payload), BeValue(f[2].payload), BeValue(f[3].payload),
                                      BeValue(f[4].payload), BeValue(f[5].payload);
    assert InWidth(chain, 32) && f[0] == Str(Minimal(chain)) by { NumberForm(f[0], 32); }
    assert InWidth(nonce, 8) && f[2] == Str(Minimal(nonce)) by { NumberForm(f[2], 8); }
    assert InWidth(parity, 1) && f[3] == Str(Minimal(parity)) by { NumberForm(f[3], 1); }
    assert InWidth(r, 32) && f[4] == Str(Minimal(r)) by { NumberForm(f[4], 32); }
    assert InWidth(s, 32) && f[5] == Str(Minimal(s)) by { NumberForm(f[5], 32); }
    t := Tuple(chain, f[1].payload, nonce, parity, r, s);
    assert f == [f[0], f[1], f[2], f[3], f[4], f[5]];
  }

  lemma TupleForm(it: Item) returns (t: Tuple)
    requires Canonical(it) && Authorization(it)
    ensures TupleSized(t) && it == TupleItem(t)
  {
    var f := Items(it.payload).value;
    ItemsJoined(it.payload);
    forall i | 0 <= i < 6 ensures Canonical(f[i]) { assert f[i] in f; }
    t := PartsForm(f);
  }

  lemma NumberAccepted(n: nat, width: nat)
    requires InWidth(n, width) && width < MAX_LENGTH
    ensures Canonical(Str(Minimal(n))) && Uint(Str(Minimal(n)), width).Some?
  {
    MinimalValue(n, width);
  }

  lemma PartsAccepted(t: Tuple)
    requires TupleSized(t)
    ensures TupleFields(TupleParts(t)) && forall i :: 0 <= i < 6 ==> Canonical(TupleParts(t)[i])
  {
    var f := TupleParts(t);
    assert Canonical(f[0]) && Uint(f[0], 32).Some? by { NumberAccepted(t.chain, 32); }
    assert Canonical(f[1]) && IsBytes(f[1], 20);
    assert Canonical(f[2]) && Uint(f[2], 8).Some? by { NumberAccepted(t.nonce, 8); }
    assert Canonical(f[3]) && Uint(f[3], 1).Some? by { NumberAccepted(t.parity, 1); }
    assert Canonical(f[4]) && Uint(f[4], 32).Some? by { NumberAccepted(t.r, 32); }
    assert Canonical(f[5]) && Uint(f[5], 32).Some? by { NumberAccepted(t.s, 32); }
  }

  lemma TupleAccepted(t: Tuple)
    requires TupleSized(t) && |TupleItem(t).raw| < MAX_LENGTH
    ensures Canonical(TupleItem(t)) && Authorization(TupleItem(t))
  {
    PartsAccepted(t);
    LstInside(Joined(TupleParts(t)));
    ItemsOfJoined(TupleParts(t));
  }

  /** A list of canonical items, opened and closed. */
  lemma ListForm(raw: Bytes, ok: Item -> bool)
    requires ListOf(raw, ok) && |raw| < MAX_LENGTH
    ensures Items(Decode(raw).value.payload).Some?
    ensures var its := Items(Decode(raw).value.payload).value;
            raw == Lst(Joined(its)).raw && forall it :: it in its ==> Canonical(it) && ok(it)
  {
    RawIsPrefix(raw);
    EncodeDecode(raw);
    var payload := Decode(raw).value.payload;
    EachIsAll(payload, ok);
    ItemsJoined(payload);
  }

  lemma ListAccepted(its: seq<Item>, ok: Item -> bool)
    requires |Lst(Joined(its)).raw| < MAX_LENGTH && forall it :: it in its ==> Canonical(it) && ok(it)
    ensures ListOf(Lst(Joined(its)).raw, ok)
  {
    var p := Joined(its);
    LstInside(p);
    DecodeEncode(List, p, []);
    assert Lst(p).raw + [] == Lst(p).raw;
    ItemsOfJoined(its);
    EachIsAll(p, ok);
  }

  function AccessItems(es: seq<Access>): seq<Item> { seq(|es|, i requires 0 <= i < |es| => AccessItem(es[i])) }
  function TupleItems(ts: seq<Tuple>): seq<Item> { seq(|ts|, i requires 0 <= i < |ts| => TupleItem(ts[i])) }

  ghost predicate AccessListBytes(raw: Bytes, es: seq<Access>) {
    (forall i :: 0 <= i < |es| ==> AccessSized(es[i])) && raw == Lst(Joined(AccessItems(es))).raw
  }

  ghost predicate TupleListBytes(raw: Bytes, ts: seq<Tuple>) {
    (forall i :: 0 <= i < |ts| ==> TupleSized(ts[i])) && raw == Lst(Joined(TupleItems(ts))).raw
  }

  lemma {:induction false} EntriesOf(its: seq<Item>) returns (es: seq<Access>)
    requires forall it :: it in its ==> Canonical(it) && AccessEntry(it)
    ensures AccessItems(es) == its && forall i :: 0 <= i < |es| ==> AccessSized(es[i])
    decreases |its|
  {
    es := [];
    if its != [] {
      var n := |its| - 1;
      assert its[n] in its;
      var e := EntryForm(its[n]);
      var front := EntriesOf(its[..n]);
      es := front + [e];
      assert AccessItems(es) == its[..n] + [its[n]];
    }
  }

  lemma {:induction false} TuplesOf(its: seq<Item>) returns (ts: seq<Tuple>)
    requires forall it :: it in its ==> Canonical(it) && Authorization(it)
    ensures TupleItems(ts) == its && forall i :: 0 <= i < |ts| ==> TupleSized(ts[i])
    decreases |its|
  {
    ts := [];
    if its != [] {
      var n := |its| - 1;
      assert its[n] in its;
      var t := TupleForm(its[n]);
      var front := TuplesOf(its[..n]);
      ts := front + [t];
      OneMoreTuple(front, t, its);
    }
  }

  lemma OneMoreTuple(front: seq<Tuple>, t: Tuple, its: seq<Item>)
    requires its != [] && TupleItems(front) == its[..|its| - 1] && TupleItem(t) == its[|its| - 1]
    ensures TupleItems(front + [t]) == its
  {
    assert its == its[..|its| - 1] + [its[|its| - 1]];
  }

  /** The access lists accepted are exactly the encodings of 20-byte addresses with 32-byte
      keys. */
  lemma AccessListForm(raw: Bytes)
    requires |raw| < MAX_LENGTH
    ensures ListOf(raw, AccessEntry) <==> exists es :: AccessListBytes(raw, es)
  {
    if ListOf(raw, AccessEntry) {
      ListForm(raw, AccessEntry);
      var es := EntriesOf(Items(Decode(raw).value.payload).value);
      assert AccessListBytes(raw, es);
    }
    forall es | AccessListBytes(raw, es) ensures ListOf(raw, AccessEntry) {
      var its := AccessItems(es);
      LstInside(Joined(its));
      forall it | it in its ensures Canonical(it) && AccessEntry(it) {
        var i :| 0 <= i < |its| && its[i] == it;
        JoinedLonger(its, i);
        EntryAccepted(es[i]);
      }
      ListAccepted(its, AccessEntry);
    }
  }

  /** The authorization lists accepted are exactly the encodings of tuples of their widths. */
  lemma TupleListForm(raw: Bytes)
    requires |raw| < MAX_LENGTH
    ensures ListOf(raw, Authorization) <==> exists ts :: TupleListBytes(raw, ts)
  {
    if ListOf(raw, Authorization) {
      ListForm(raw, Authorization);
      var ts := TuplesOf(Items(Decode(raw).value.payload).value);
      assert TupleListBytes(raw, ts);
    }
    forall ts | TupleListBytes(raw, ts) ensures ListOf(raw, Authorization) {
      var its := TupleItems(ts);
      LstInside(Joined(its));
      forall it | it in its ensures Canonical(it) && Authorization(it) {
        var i :| 0 <= i < |its| && its[i] == it;
        JoinedLonger(its, i);
        TupleAccepted(ts[i]);
      }
      ListAccepted(its, Authorization);
    }
  }
}
