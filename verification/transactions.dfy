/** Transaction envelopes: parsing and printing undo each other. */
module Transactions {
  import opened Basics
  import opened Rlp
  import opened NestedLists

  // ----- fields -------------------------------------------------------------------------------------

  datatype FieldKind = U64 | U256 | ToField | DataField | ListField

  datatype Value =
    | Num(n: nat)
    | To(present: bool, address: Bytes)
    | Data(bytes: Bytes)
    | Raw(raw: Bytes)

  /** One field of the parsers; nothing where they halt. */
  function ReadField(k: FieldKind, it: Item): Option<Value> {
    match k
    case U64 => (match Uint(it, 8) case Some(n) => Some(Num(n)) case None => None)
    case U256 => (match Uint(it, 32) case Some(n) => Some(Num(n)) case None => None)
    case ToField =>
      if it.kind != String then None
      else if it.payload == [] then Some(To(false, []))
      else if |it.payload| == 20 then Some(To(true, it.payload))
      else None
    case DataField => if it.kind == String then Some(Data(it.payload)) else None
    case ListField => if it.kind == List then Some(Raw(it.raw)) else None
  }

  function PrintField(v: Value): Bytes {
    match v
    case Num(n) => EncodeUint(n)
    case To(present, a) => Encode(String, if present then a else [])
    case Data(b) => Encode(String, b)
    case Raw(b) => b
  }

  predicate Fits(k: FieldKind, v: Value) {
    match k
    case U64 => v.Num? && v.n < Pow256(8)
    case U256 => v.Num? && v.n < Pow256(32)
    case ToField => v.To? && if v.present then |v.address| == 20 else v.address == []
    case DataField => v.Data? && |v.bytes| < MAX_LENGTH
    case ListField => v.Raw? && IsList(v.raw) && |v.raw| < MAX_LENGTH
  }

  lemma ListStands(b: Bytes, tail: Bytes)
    requires IsList(b) && |b| < MAX_LENGTH
    ensures Decode(b + tail) == Decode(b) && b != []
  {
    var it := Decode(b).value;
    assert |it.payload| <= |b|;
    EncodeDecode(b);
    DecodeEncode(List, it.payload, tail);
    DecodeEncode(List, it.payload, []);
    assert b + [] == b;
  }

  /** Printing what was read gives the item's own bytes. */
  lemma PrintRead(k: FieldKind, data: Bytes)
    requires Decode(data).Some? && |data| < MAX_LENGTH
    requires ReadField(k, Decode(data).value).Some?
    ensures var it := Decode(data).value;
            var v := ReadField(k, it).value;
            && PrintField(v) == it.raw && Fits(k, v) && it.raw <= data && it.raw != []
  {
    var it := Decode(data).value;
    assert |it.payload| <= |data|;
    EncodeDecode(data);
    match k
    case U64 => UintInverse(it, 8);
    case U256 => UintInverse(it, 32);
    case ListField =>
      DecodeEncode(List, it.payload, []);
      assert it.raw + [] == it.raw;
    case _ =>
  }

  /** Reading what was printed gives the value back, whatever follows. */
  lemma ReadPrint(k: FieldKind, v: Value, tail: Bytes)
    requires Fits(k, v)
    ensures var d := Decode(PrintField(v) + tail);
            && d.Some? && d.value.raw == PrintField(v) && PrintField(v) != []
            && ReadField(k, d.value) == Some(v)
  {
    match k
    case U64 => NumStands(v.n, 8, tail);
    case U256 => NumStands(v.n, 32, tail);
    case ToField => DecodeEncode(String, if v.present then v.address else [], tail);
    case DataField => DecodeEncode(String, v.bytes, tail);
    case ListField => ListStands(v.raw, tail);
  }

  lemma NumStands(n: nat, width: nat, tail: Bytes)
    requires n < Pow256(width) && width < MAX_LENGTH
    ensures var d := Decode(EncodeUint(n) + tail);
            d.Some? && d.value.raw == EncodeUint(n) && Uint(d.value, width) == Some(n)
  {
    MinimalValue(n, width);
    DecodeEncode(String, Minimal(n), tail);
    UintRoundTrip(n, width, EncodeUint(n));
  }

  // ----- lists of fields -----------------------------------------------------------------------------

  function ParseFields(kinds: seq<FieldKind>, payload: Bytes): Option<seq<Value>>
    decreases |kinds|
  {
    if kinds == [] then (if payload == [] then Some([]) else None)
    else
      match Decode(payload)
      case None => None
      case Some(it) =>
        match ReadField(kinds[0], it)
        case None => None
        case Some(v) =>
          if |it.raw| > |payload| then None
          else
            match ParseFields(kinds[1..], payload[|it.raw|..])
            case None => None
            case Some(rest) => Some([v] + rest)
  }

  function Print(vs: seq<Value>): Bytes {
    if vs == [] then [] else PrintField(vs[0]) + Print(vs[1..])
  }

  predicate AllFit(kinds: seq<FieldKind>, vs: seq<Value>) {
    |kinds| == |vs| && forall i :: 0 <= i < |vs| ==> Fits(kinds[i], vs[i])
  }

  lemma {:induction false} PrintParsed(kinds: seq<FieldKind>, payload: Bytes)
    requires ParseFields(kinds, payload).Some? && |payload| < MAX_LENGTH
    ensures Print(ParseFields(kinds, payload).value) == payload
    ensures AllFit(kinds, ParseFields(kinds, payload).value)
    decreases |kinds|
  {
    if kinds != [] {
      var it := Decode(payload).value;
      PrintRead(kinds[0], payload);
      var tail := payload[|it.raw|..];
      PrintParsed(kinds[1..], tail);
      var v, rest := ReadField(kinds[0], it).value, ParseFields(kinds[1..], tail).value;
      assert ([v] + rest)[1..] == rest;
      assert payload == it.raw + tail;
      forall i | 0 <= i < |kinds| ensures Fits(kinds[i], ([v] + rest)[i]) {
        if i > 0 { assert Fits(kinds[1..][i - 1], rest[i - 1]); }
      }
    }
  }

  /** The first field of a printed list, and the rest. */
  lemma FitsRest(kinds: seq<FieldKind>, vs: seq<Value>, t: Bytes)
    requires AllFit(kinds, vs) && kinds != []
    ensures Fits(kinds[0], vs[0]) && AllFit(kinds[1..], vs[1..])
    ensures Print(vs) + t == PrintField(vs[0]) + (Print(vs[1..]) + t)
  {
    forall i | 0 <= i < |vs[1..]| ensures Fits(kinds[1..][i], vs[1..][i]) {
      assert Fits(kinds[i + 1], vs[i + 1]);
    }
  }

  lemma {:induction false} ParsePrinted(kinds: seq<FieldKind>, vs: seq<Value>)
    requires AllFit(kinds, vs)
    ensures ParseFields(kinds, Print(vs)) == Some(vs)
    decreases |kinds|
  {
    if kinds != [] {
      FitsRest(kinds, vs, []);
      ParsePrinted(kinds[1..], vs[1..]);
      ParseOneMore(kinds, vs[0], vs[1..]);
      assert vs == [vs[0]] + vs[1..];
      assert Print(vs) == PrintField(vs[0]) + Print(vs[1..]);
    }
  }

  lemma ParseOneMore(kinds: seq<FieldKind>, v: Value, rest: seq<Value>)
    requires kinds != [] && Fits(kinds[0], v) && ParseFields(kinds[1..], Print(rest)) == Some(rest)
    ensures ParseFields(kinds, PrintField(v) + Print(rest)) == Some([v] + rest)
  {
    var head, tail := PrintField(v), Print(rest);
    ReadPrint(kinds[0], v, tail);
    assert (head + tail)[|head|..] == tail;
  }

  lemma {:induction false} PrintAppend(a: seq<Value>, b: seq<Value>)
    ensures Print(a + b) == Print(a) + Print(b)
    decreases |a|
  {
    if a == [] {
      assert a + b == b;
    } else {
      assert (a + b)[1..] == a[1..] + b;
      PrintAppend(a[1..], b);
    }
  }

  /** The parsers: fields in fixed order from a moving iterator, then nothing left. */
  method ReadFields(kinds: seq<FieldKind>, payload: Bytes) returns (r: Option<seq<Value>>)
    ensures r == ParseFields(kinds, payload)
  {
    var it := new ListIter(payload);
    var vs: seq<Value> := [];
    assert kinds[0..] == kinds;
    PrependNothing(ParseFields(kinds, payload));
    for i := 0 to |kinds|
      invariant ParseFields(kinds, payload) == Prepend(vs, ParseFields(kinds[i..], it.remaining))
    {
      assert kinds[i..][0] == kinds[i] && kinds[i..][1..] == kinds[i + 1..];
      ghost var before := it.remaining;
      var item := it.Next();
      if item.None? { return None; }
      RawIsPrefix(before);
      var v := ReadField(kinds[i], item.value);
      if v.None? { return None; }
      PrependMore(vs, v.value, ParseFields(kinds[i + 1..], it.remaining));
      vs := vs + [v.value];
    }
    if it.remaining != [] { return None; }
    assert vs + [] == vs;
    r := Some(vs);
  }

  function Prepend(vs: seq<Value>, r: Option<seq<Value>>): Option<seq<Value>> {
    match r
    case None => None
    case Some(rest) => Some(vs + rest)
  }

  lemma PrependNothing(r: Option<seq<Value>>)
    ensures Prepend([], r) == r
  {
    if r.Some? { assert [] + r.value == r.value; }
  }

  lemma PrependMore(vs: seq<Value>, v: Value, r: Option<seq<Value>>)
    ensures Prepend(vs, Prepend([v], r)) == Prepend(vs + [v], r)
  {
    if r.Some? { assert vs + ([v] + r.value) == vs + [v] + r.value; }
  }

  // ----- transaction types ------------------------------------------------------------------------------

  datatype Type = Legacy | AccessList | DynamicFee | BlobTx | SetCode | Osaka

  function Kinds(t: Type): seq<FieldKind> {
    match t
    case Legacy => [U64, U256, U64, ToField, U256, DataField] + SIGNATURE
    case AccessList => [U64, U64, U256, U64, ToField, U256, DataField, ListField] + SIGNATURE
    case DynamicFee => [U64, U64, U256, U256, U64, ToField, U256, DataField, ListField] + SIGNATURE
    case BlobTx => [U64, U64, U256, U256, U64, ToField, U256, DataField, ListField, U256, ListField] + SIGNATURE
    case SetCode => [U64, U64, U256, U256, U64, ToField, U256, DataField, ListField, ListField] + SIGNATURE
    case Osaka => [U64, U64, U256, U256, U64, ToField, U256, DataField, ListField, ListField] + SIGNATURE
  }

  const SIGNATURE: seq<FieldKind> := [U64, U256, U256]

  /** The parsed view; a field the type does not have keeps its default. */
  datatype View = View(
    typ: Type, chainId: nat, nonce: nat, gasPrice: nat, maxPriority: nat, maxFee: nat, gasLimit: nat,
    toPresent: bool, to: Bytes, value: nat, data: Bytes, accessList: Bytes, maxBlobFee: nat,
    extraList: Bytes, parity: nat, r: nat, s: nat)

  /** Extra lists of the types that have one: blob hashes, authorizations, init codes. */
  function Blank(t: Type): View {
    View(t, 0, 0, 0, 0, 0, 0, false, [], 0, [], [], 0, [], 0, 0, 0)
  }

  /** EIP-155 hides the chain id in the signature's v. */
  function LegacyChain(v: nat): nat {
    if v >= 35 then (v - 35) / 2 else 0
  }

  function NumOf(v: Value): nat { if v.Num? then v.n else 0 }
  function ToOf(v: Value): (bool, Bytes) { if v.To? then (v.present, v.address) else (false, []) }
  function DataOf(v: Value): Bytes { if v.Data? then v.bytes else [] }
  function RawOf(v: Value): Bytes { if v.Raw? then v.raw else [] }

  /** The signature comes last. */
  function Signed(v: View, vs: seq<Value>): View
    requires |vs| >= 3
  {
    var n := |vs|;
    v.(parity := NumOf(vs[n - 3]), r := NumOf(vs[n - 2]), s := NumOf(vs[n - 1]))
  }

  /** The view the parser of each type fills, field by field. */
  function ViewOf(t: Type, vs: seq<Value>): View
    requires |vs| == |Kinds(t)|
  {
    var b := Signed(Blank(t), vs);
    match t
    case Legacy =>
      b.(nonce := NumOf(vs[0]), gasPrice := NumOf(vs[1]), gasLimit := NumOf(vs[2]), toPresent := ToOf(vs[3]).0,
        to := ToOf(vs[3]).1, value := NumOf(vs[4]), data := DataOf(vs[5]), chainId := LegacyChain(b.parity))
    case AccessList =>
      b.(chainId := NumOf(vs[0]), nonce := NumOf(vs[1]), gasPrice := NumOf(vs[2]), gasLimit := NumOf(vs[3]),
        toPresent := ToOf(vs[4]).0, to := ToOf(vs[4]).1, value := NumOf(vs[5]), data := DataOf(vs[6]),
        accessList := RawOf(vs[7]))
    case DynamicFee => FeeMarket(b, vs)
    case BlobTx => FeeMarket(b, vs).(maxBlobFee := NumOf(vs[9]), extraList := RawOf(vs[10]))
    case _ => FeeMarket(b, vs).(extraList := RawOf(vs[9]))
  }

  /** The nine fields every transaction since EIP-1559 starts with. */
  function FeeMarket(b: View, vs: seq<Value>): View
    requires |vs| >= 9
  {
    b.(chainId := NumOf(vs[0]), nonce := NumOf(vs[1]), maxPriority := NumOf(vs[2]), maxFee := NumOf(vs[3]),
       gasLimit := NumOf(vs[4]), toPresent := ToOf(vs[5]).0, to := ToOf(vs[5]).1, value := NumOf(vs[6]),
       data := DataOf(vs[7]), accessList := RawOf(vs[8]))
  }

  /** The fields a view stands for, without and with the signature. */
  function Unsigned(v: View): seq<Value> {
    var to := To(v.toPresent, v.to);
    match v.typ
    case Legacy => [Num(v.nonce), Num(v.gasPrice), Num(v.gasLimit), to, Num(v.value), Data(v.data)]
    case AccessList =>
      [Num(v.chainId), Num(v.nonce), Num(v.gasPrice), Num(v.gasLimit), to, Num(v.value), Data(v.data), Raw(v.accessList)]
    case DynamicFee =>
      [Num(v.chainId), Num(v.nonce), Num(v.maxPriority), Num(v.maxFee), Num(v.gasLimit), to, Num(v.value), Data(v.data),
       Raw(v.accessList)]
    case BlobTx =>
      [Num(v.chainId), Num(v.nonce), Num(v.maxPriority), Num(v.maxFee), Num(v.gasLimit), to, Num(v.value), Data(v.data),
       Raw(v.accessList), Num(v.maxBlobFee), Raw(v.extraList)]
    case _ =>
      [Num(v.chainId), Num(v.nonce), Num(v.maxPriority), Num(v.maxFee), Num(v.gasLimit), to, Num(v.value), Data(v.data),
       Raw(v.accessList), Raw(v.extraList)]
  }

  function Signature(v: View): seq<Value> { [Num(v.parity), Num(v.r), Num(v.s)] }

  function FieldsOf(v: View): seq<Value> { Unsigned(v) + Signature(v) }

  /** A value of the right constructor for its field. */
  predicate Tagged(k: FieldKind, v: Value) {
    match k
    case U64 => v.Num?
    case U256 => v.Num?
    case ToField => v.To?
    case DataField => v.Data?
    case ListField => v.Raw?
  }

  lemma TagOf(kinds: seq<FieldKind>, vs: seq<Value>, i: nat)
    requires AllFit(kinds, vs) && i < |vs|
    ensures Tagged(kinds[i], vs[i])
  {
    assert Fits(kinds[i], vs[i]);
  }

  predicate AllTagged(kinds: seq<FieldKind>, vs: seq<Value>) {
    |kinds| == |vs| && forall i :: 0 <= i < |vs| ==> Tagged(kinds[i], vs[i])
  }

  lemma LegacyInverse(vs: seq<Value>)
    requires AllTagged(Kinds(Legacy), vs)
    ensures FieldsOf(ViewOf(Legacy, vs)) == vs
  {
    assert Tagged(U64, vs[0]) && Tagged(U256, vs[1]) && Tagged(U64, vs[2]) && Tagged(ToField, vs[3]) &&
           Tagged(U256, vs[4]) && Tagged(DataField, vs[5]) && Tagged(U64, vs[6]) && Tagged(U256, vs[7]) &&
           Tagged(U256, vs[8]) by { Tags(Kinds(Legacy), vs); }
    assert vs == [vs[0], vs[1], vs[2], vs[3], vs[4], vs[5]] + [vs[6], vs[7], vs[8]];
  }

  lemma AccessListInverse(vs: seq<Value>)
    requires AllTagged(Kinds(AccessList), vs)
    ensures FieldsOf(ViewOf(AccessList, vs)) == vs
  {
    assert Tagged(U64, vs[0]) && Tagged(U64, vs[1]) && Tagged(U256, vs[2]) && Tagged(U64, vs[3]) &&
           Tagged(ToField, vs[4]) && Tagged(U256, vs[5]) && Tagged(DataField, vs[6]) && Tagged(ListField, vs[7]) &&
           Tagged(U64, vs[8]) && Tagged(U256, vs[9]) && Tagged(U256, vs[10]) by { Tags(Kinds(AccessList), vs); }
    assert vs == [vs[0], vs[1], vs[2], vs[3], vs[4], vs[5], vs[6], vs[7]] + [vs[8], vs[9], vs[10]];
  }

  predicate FeeMarketTagged(vs: seq<Value>)
    requires |vs| >= 9
  {
    && vs[0].Num? && vs[1].Num? && vs[2].Num? && vs[3].Num? && vs[4].Num?
    && vs[5].To? && vs[6].Num? && vs[7].Data? && vs[8].Raw?
  }

  predicate SignatureTagged(vs: seq<Value>)
    requires |vs| >= 3
  {
    vs[|vs| - 3].Num? && vs[|vs| - 2].Num? && vs[|vs| - 1].Num?
  }

  lemma Tags(kinds: seq<FieldKind>, vs: seq<Value>)
    requires AllTagged(kinds, vs)
    ensures forall i :: 0 <= i < |kinds| ==> Tagged(kinds[i], vs[i])
  {
  }

  lemma FeeMarketTags(t: Type, vs: seq<Value>)
    requires t != Legacy && t != AccessList && AllTagged(Kinds(t), vs)
    ensures |vs| >= 12 && FeeMarketTagged(vs) && SignatureTagged(vs)
  {
    var k := Kinds(t);
    assert k[0] == U64 && k[1] == U64 && k[2] == U256 && k[3] == U256 && k[4] == U64 && k[5] == ToField &&
           k[6] == U256 && k[7] == DataField && k[8] == ListField;
    var n := |k|;
    assert k[n - 3] == U64 && k[n - 2] == U256 && k[n - 1] == U256;
    assert Tagged(k[0], vs[0]) && Tagged(k[1], vs[1]) && Tagged(k[2], vs[2]) && Tagged(k[3], vs[3]) &&
           Tagged(k[4], vs[4]) && Tagged(k[5], vs[5]) && Tagged(k[6], vs[6]) && Tagged(k[7], vs[7]) && Tagged(k[8], vs[8]);
    assert Tagged(k[n - 3], vs[n - 3]) && Tagged(k[n - 2], vs[n - 2]) && Tagged(k[n - 1], vs[n - 1]);
  }

  lemma DynamicFeeInverse(vs: seq<Value>)
    requires AllTagged(Kinds(DynamicFee), vs)
    ensures FieldsOf(ViewOf(DynamicFee, vs)) == vs
  {
    FeeMarketTags(DynamicFee, vs);
    assert vs == [vs[0], vs[1], vs[2], vs[3], vs[4], vs[5], vs[6], vs[7], vs[8]] + [vs[9], vs[10], vs[11]];
  }

  lemma BlobInverse(vs: seq<Value>)
    requires AllTagged(Kinds(BlobTx), vs)
    ensures FieldsOf(ViewOf(BlobTx, vs)) == vs
  {
    FeeMarketTags(BlobTx, vs);
    assert Tagged(Kinds(BlobTx)[9], vs[9]) && Tagged(Kinds(BlobTx)[10], vs[10]);
    assert vs == [vs[0], vs[1], vs[2], vs[3], vs[4], vs[5], vs[6], vs[7], vs[8], vs[9], vs[10]] + [vs[11], vs[12], vs[13]];
  }

  lemma ExtraListInverse(t: Type, vs: seq<Value>)
    requires (t == SetCode || t == Osaka) && AllTagged(Kinds(t), vs)
    ensures FieldsOf(ViewOf(t, vs)) == vs
  {
    FeeMarketTags(t, vs);
    assert Tagged(Kinds(t)[9], vs[9]);
    assert vs == [vs[0], vs[1], vs[2], vs[3], vs[4], vs[5], vs[6], vs[7], vs[8], vs[9]] + [vs[10], vs[11], vs[12]];
  }

  /** A view keeps every parsed field in its place. */
  lemma ViewInverse(t: Type, vs: seq<Value>)
    requires AllFit(Kinds(t), vs)
    ensures ViewOf(t, vs).typ == t && FieldsOf(ViewOf(t, vs)) == vs
  {
    forall i | 0 <= i < |vs| ensures Tagged(Kinds(t)[i], vs[i]) { TagOf(Kinds(t), vs, i); }
    ViewKeeps(t, vs);
  }

  lemma ViewKeeps(t: Type, vs: seq<Value>)
    requires AllTagged(Kinds(t), vs)
    ensures ViewOf(t, vs).typ == t && FieldsOf(ViewOf(t, vs)) == vs
  {
    match t
    case Legacy => LegacyInverse(vs);
    case AccessList => AccessListInverse(vs);
    case DynamicFee => DynamicFeeInverse(vs);
    case BlobTx => BlobInverse(vs);
    case _ => ExtraListInverse(t, vs);
  }

  // ----- envelopes -----------------------------------------------------------------------------------------

  function TypePrefix(t: Type): Bytes {
    match t
    case Legacy => []
    case AccessList => [1]
    case DynamicFee => [2]
    case BlobTx => [3]
    case SetCode => [4]
    case Osaka => [5]
  }

  function TypeOf(lead: Byte): Option<Type> {
    if lead >= 0xc0 then Some(Legacy)
    else if lead == 1 then Some(AccessList)
    else if lead == 2 then Some(DynamicFee)
    else if lead == 3 then Some(BlobTx)
    else if lead == 4 then Some(SetCode)
    else if lead == 5 then Some(Osaka)
    else None
  }

  /** The nested lists of a typed transaction are well-formed. */
  predicate ListsOk(v: View) {
    && (v.typ != Legacy ==> ListOf(v.accessList, AccessEntry))
    && (v.typ == SetCode ==> ListOf(v.extraList, Authorization))
  }

  lemma PayloadShort(data: Bytes)
    requires Decode(data).Some?
    ensures |Decode(data).value.payload| <= |data|
  {
  }

  /** What the constructor does with one envelope; nothing where it halts. */
  function Parse(env: Bytes): Option<View> {
    if env == [] then None
    else
      match TypeOf(env[0])
      case None => None
      case Some(t) => ParseBody(t, if t == Legacy then env else env[1..])
  }

  function ParseBody(t: Type, whole: Bytes): Option<View> {
    match Decode(whole)
    case None => None
    case Some(outer) =>
      if outer.kind != List || |outer.raw| != |whole| then None
      else
        match ParseFields(Kinds(t), outer.payload)
        case None => None
        case Some(vs) =>
          ParsedLength(Kinds(t), outer.payload);
          var v := ViewOf(t, vs);
          if ListsOk(v) then Some(v) else None
  }

  lemma {:induction false} ParsedLength(kinds: seq<FieldKind>, payload: Bytes)
    requires ParseFields(kinds, payload).Some?
    ensures |ParseFields(kinds, payload).value| == |kinds|
    decreases |kinds|
  {
    if kinds != [] {
      ParsedLength(kinds[1..], payload[|Decode(payload).value.raw|..]);
    }
  }

  // ----- what an envelope says ------------------------------------------------------------------------

  predicate NumAt(it: Item, n: nat, width: nat) {
    && it.kind == String && |it.payload| <= width && (it.payload != [] ==> it.payload[0] != 0)
    && n == BeValue(it.payload)
  }

  predicate ToAt(it: Item, v: View) {
    it.kind == String && it.payload == v.to && |v.to| == if v.toPresent then 20 else 0
  }

  predicate DataAt(it: Item, data: Bytes) { it.kind == String && it.payload == data }

  predicate ListAt(it: Item, raw: Bytes) { it.kind == List && it.raw == raw }

  predicate SignatureAt(f: seq<Item>, i: nat, v: View) {
    |f| == i + 3 && NumAt(f[i], v.parity, 8) && NumAt(f[i + 1], v.r, 32) && NumAt(f[i + 2], v.s, 32)
  }

  /** Chain id, nonce, the two fees, gas limit, recipient, value, data, access list. */
  predicate FeeMarketAt(f: seq<Item>, v: View) {
    && |f| >= 9 && NumAt(f[0], v.chainId, 8) && NumAt(f[1], v.nonce, 8) && NumAt(f[2], v.maxPriority, 32)
    && NumAt(f[3], v.maxFee, 32) && NumAt(f[4], v.gasLimit, 8) && ToAt(f[5], v) && NumAt(f[6], v.value, 32)
    && DataAt(f[7], v.data) && ListAt(f[8], v.accessList) && v.gasPrice == 0
  }

  /** EIP-155: the chain id and the parity share one number, from 35 on. */
  predicate ChainHidden(v: View) {
    if v.parity < 35 then v.chainId == 0 else v.parity == 35 + 2 * v.chainId || v.parity == 36 + 2 * v.chainId
  }

  /** The fields of each type by position, as the EIPs that define it list them. */
  predicate Says(f: seq<Item>, v: View) {
    match v.typ
    case Legacy =>
      && SignatureAt(f, 6, v) && NumAt(f[0], v.nonce, 8) && NumAt(f[1], v.gasPrice, 32) && NumAt(f[2], v.gasLimit, 8)
      && ToAt(f[3], v) && NumAt(f[4], v.value, 32) && DataAt(f[5], v.data) && ChainHidden(v)
      && v.maxPriority == v.maxFee == v.maxBlobFee == 0 && v.accessList == v.extraList == []
    case AccessList =>
      && SignatureAt(f, 8, v) && NumAt(f[0], v.chainId, 8) && NumAt(f[1], v.nonce, 8) && NumAt(f[2], v.gasPrice, 32)
      && NumAt(f[3], v.gasLimit, 8) && ToAt(f[4], v) && NumAt(f[5], v.value, 32) && DataAt(f[6], v.data)
      && ListAt(f[7], v.accessList) && v.maxPriority == v.maxFee == v.maxBlobFee == 0 && v.extraList == []
    case DynamicFee => SignatureAt(f, 9, v) && FeeMarketAt(f, v) && v.maxBlobFee == 0 && v.extraList == []
    case BlobTx =>
      SignatureAt(f, 11, v) && FeeMarketAt(f, v) && NumAt(f[9], v.maxBlobFee, 32) && ListAt(f[10], v.extraList)
    case _ => SignatureAt(f, 10, v) && FeeMarketAt(f, v) && ListAt(f[9], v.extraList) && v.maxBlobFee == 0
  }

  predicate Leads(t: Type, lead: Byte) {
    match t
    case Legacy => lead >= 0xc0
    case AccessList => lead == 1
    case DynamicFee => lead == 2
    case BlobTx => lead == 3
    case SetCode => lead == 4
    case Osaka => lead == 5
  }

  /** The bytes are the lead of the type and one list of its fields, and the nested lists
      are in order. */
  predicate EnvelopeSays(env: Bytes, v: View) {
    && env != [] && Leads(v.typ, env[0])
    && var whole := if v.typ == Legacy then env else env[1..];
       && IsList(whole) && Items(Decode(whole).value.payload).Some?
       && Says(Items(Decode(whole).value.payload).value, v) && ListsOk(v)
  }

  /** Every item of `f` reads as the value at its position. */
  predicate ReadAs(kinds: seq<FieldKind>, f: seq<Item>, vs: seq<Value>) {
    |kinds| == |f| == |vs| && forall i :: 0 <= i < |kinds| ==> ReadField(kinds[i], f[i]) == Some(vs[i])
  }

  lemma {:induction false} ParsedByPosition(kinds: seq<FieldKind>, payload: Bytes, vs: seq<Value>)
    ensures ParseFields(kinds, payload) == Some(vs) <==> Items(payload).Some? && ReadAs(kinds, Items(payload).value, vs)
    decreases |kinds|
  {
    if kinds == [] {
      assert payload != [] && Items(payload).Some? ==> |Items(payload).value| > 0;
    } else if payload != [] && Decode(payload).Some? && vs != [] {
      var it := Decode(payload).value;
      ItemsNext(payload);
      var tail := payload[|it.raw|..];
      ParsedByPosition(kinds[1..], tail, vs[1..]);
      assert vs == [vs[0]] + vs[1..];
      if Items(tail).Some? {
        ReadAsNext(kinds, it, Items(tail).value, vs);
      }
    }
  }

  lemma ReadAsNext(kinds: seq<FieldKind>, it: Item, rest: seq<Item>, vs: seq<Value>)
    requires kinds != [] && vs != []
    ensures ReadAs(kinds, [it] + rest, vs) <==> ReadField(kinds[0], it) == Some(vs[0]) && ReadAs(kinds[1..], rest, vs[1..])
  {
    var f := [it] + rest;
    if ReadField(kinds[0], it) == Some(vs[0]) && ReadAs(kinds[1..], rest, vs[1..]) {
      forall i | 0 <= i < |kinds| ensures ReadField(kinds[i], f[i]) == Some(vs[i]) {
        if i > 0 { assert ReadField(kinds[1..][i - 1], rest[i - 1]) == Some(vs[1..][i - 1]); }
      }
    }
    if ReadAs(kinds, f, vs) {
      assert ReadField(kinds[0], f[0]) == Some(vs[0]);
      forall i | 0 <= i < |rest| ensures ReadField(kinds[1..][i], rest[i]) == Some(vs[1..][i]) {
        assert ReadField(kinds[i + 1], f[i + 1]) == Some(vs[i + 1]);
      }
    }
  }

  lemma ReadIsTagged(kinds: seq<FieldKind>, f: seq<Item>, vs: seq<Value>)
    requires ReadAs(kinds, f, vs)
    ensures AllTagged(kinds, vs)
  {
    forall i | 0 <= i < |vs| ensures Tagged(kinds[i], vs[i]) {
      assert ReadField(kinds[i], f[i]) == Some(vs[i]);
    }
  }

  lemma LegacySays(f: seq<Item>, v: View)
    requires v.typ == Legacy
    ensures Says(f, v) <==> ReadAs(Kinds(Legacy), f, FieldsOf(v)) && v == ViewOf(Legacy, FieldsOf(v))
  {
  }

  lemma AccessListSays(f: seq<Item>, v: View)
    requires v.typ == AccessList
    ensures Says(f, v) <==> ReadAs(Kinds(AccessList), f, FieldsOf(v)) && v == ViewOf(AccessList, FieldsOf(v))
  {
  }

  const FEE_MARKET: seq<FieldKind> := [U64, U64, U256, U256, U64, ToField, U256, DataField, ListField]

  function Nine(v: View): seq<Value> {
    [Num(v.chainId), Num(v.nonce), Num(v.maxPriority), Num(v.maxFee), Num(v.gasLimit), To(v.toPresent, v.to), Num(v.value),
     Data(v.data), Raw(v.accessList)]
  }

  lemma NineRead(f: seq<Item>, v: View)
    requires FeeMarketAt(f, v)
    ensures ReadAs(FEE_MARKET, f[..9], Nine(v))
  {
  }

  lemma SignatureRead(f: seq<Item>, i: nat, v: View)
    requires SignatureAt(f, i, v)
    ensures ReadAs(SIGNATURE, f[i..], Signature(v))
  {
  }

  /** Head, middle and signature together. */
  lemma ReadPieces(mid: seq<FieldKind>, f: seq<Item>, i: nat, a: seq<Value>, b: seq<Value>, c: seq<Value>)
    requires 9 <= i <= |f| && ReadAs(FEE_MARKET, f[..9], a) && ReadAs(mid, f[9..i], b) && ReadAs(SIGNATURE, f[i..], c)
    ensures ReadAs(FEE_MARKET + mid + SIGNATURE, f, a + b + c)
  {
    ReadAsPlus(FEE_MARKET, mid, f[..9], f[9..i], a, b);
    ReadAsPlus(FEE_MARKET + mid, SIGNATURE, f[..9] + f[9..i], f[i..], a + b, c);
    assert f == f[..9] + f[9..i] + f[i..];
  }

  lemma ReadAsPlus(k: seq<FieldKind>, k': seq<FieldKind>, f: seq<Item>, f': seq<Item>, a: seq<Value>, b: seq<Value>)
    requires ReadAs(k, f, a) && ReadAs(k', f', b)
    ensures ReadAs(k + k', f + f', a + b)
  {
  }

  /** The nine fields that the fee-market types share. */
  lemma SaidFeeMarket(f: seq<Item>, v: View)
    requires v.typ != Legacy && v.typ != AccessList
    requires ReadAs(Kinds(v.typ), f, FieldsOf(v)) && v == ViewOf(v.typ, FieldsOf(v))
    ensures FeeMarketAt(f, v)
  {
    var k, vs := Kinds(v.typ), FieldsOf(v);
    assert k[..9] == [U64, U64, U256, U256, U64, ToField, U256, DataField, ListField];
    forall i | 0 <= i < 9 ensures ReadField(k[..9][i], f[i]) == Some(vs[i]) {
      assert ReadField(k[i], f[i]) == Some(vs[i]);
    }
  }

  lemma DynamicFeeSays(f: seq<Item>, v: View)
    requires v.typ == DynamicFee && Says(f, v)
    ensures ReadAs(Kinds(DynamicFee), f, FieldsOf(v))
  {
    NineRead(f, v);
    SignatureRead(f, 9, v);
    ReadPieces([], f, 9, Nine(v), [], Signature(v));
    assert Kinds(DynamicFee) == FEE_MARKET + [] + SIGNATURE;
    assert FieldsOf(v) == Nine(v) + [] + Signature(v);
  }

  lemma DynamicFeeSaid(f: seq<Item>, v: View)
    requires v.typ == DynamicFee && ReadAs(Kinds(DynamicFee), f, FieldsOf(v)) && v == ViewOf(DynamicFee, FieldsOf(v))
    ensures Says(f, v)
  {
    SaidFeeMarket(f, v);
  }

  lemma BlobSays(f: seq<Item>, v: View)
    requires v.typ == BlobTx && Says(f, v)
    ensures ReadAs(Kinds(BlobTx), f, FieldsOf(v))
  {
    NineRead(f, v);
    SignatureRead(f, 11, v);
    ReadPieces([U256, ListField], f, 11, Nine(v), [Num(v.maxBlobFee), Raw(v.extraList)], Signature(v));
    assert Kinds(BlobTx) == FEE_MARKET + [U256, ListField] + SIGNATURE;
    assert FieldsOf(v) == Nine(v) + [Num(v.maxBlobFee), Raw(v.extraList)] + Signature(v);
  }

  lemma BlobSaid(f: seq<Item>, v: View)
    requires v.typ == BlobTx && ReadAs(Kinds(BlobTx), f, FieldsOf(v)) && v == ViewOf(BlobTx, FieldsOf(v))
    ensures Says(f, v)
  {
    SaidFeeMarket(f, v);
  }

  lemma SetCodeSays(f: seq<Item>, v: View)
    requires v.typ == SetCode && Says(f, v)
    ensures ReadAs(Kinds(SetCode), f, FieldsOf(v))
  {
    NineRead(f, v);
    SignatureRead(f, 10, v);
    ReadPieces([ListField], f, 10, Nine(v), [Raw(v.extraList)], Signature(v));
    assert Kinds(SetCode) == FEE_MARKET + [ListField] + SIGNATURE;
    assert FieldsOf(v) == Nine(v) + [Raw(v.extraList)] + Signature(v);
  }

  lemma SetCodeSaid(f: seq<Item>, v: View)
    requires v.typ == SetCode && ReadAs(Kinds(SetCode), f, FieldsOf(v)) && v == ViewOf(SetCode, FieldsOf(v))
    ensures Says(f, v)
  {
    SaidFeeMarket(f, v);
  }

  lemma OsakaSays(f: seq<Item>, v: View)
    requires v.typ == Osaka && Says(f, v)
    ensures ReadAs(Kinds(Osaka), f, FieldsOf(v))
  {
    NineRead(f, v);
    SignatureRead(f, 10, v);
    ReadPieces([ListField], f, 10, Nine(v), [Raw(v.extraList)], Signature(v));
    assert Kinds(Osaka) == FEE_MARKET + [ListField] + SIGNATURE;
    assert FieldsOf(v) == Nine(v) + [Raw(v.extraList)] + Signature(v);
  }

  lemma OsakaSaid(f: seq<Item>, v: View)
    requires v.typ == Osaka && ReadAs(Kinds(Osaka), f, FieldsOf(v)) && v == ViewOf(Osaka, FieldsOf(v))
    ensures Says(f, v)
  {
    SaidFeeMarket(f, v);
  }

  lemma SaysWhatIsRead(f: seq<Item>, v: View)
    ensures Says(f, v) <==> ReadAs(Kinds(v.typ), f, FieldsOf(v)) && |FieldsOf(v)| == |Kinds(v.typ)| && v == ViewOf(v.typ, FieldsOf(v))
  {
    match v.typ
    case Legacy => LegacySays(f, v);
    case AccessList => AccessListSays(f, v);
    case _ =>
      if Says(f, v) { FeeMarketSays(f, v); }
      if ReadAs(Kinds(v.typ), f, FieldsOf(v)) && v == ViewOf(v.typ, FieldsOf(v)) { FeeMarketSaid(f, v); }
  }

  lemma FeeMarketSays(f: seq<Item>, v: View)
    requires v.typ != Legacy && v.typ != AccessList && Says(f, v)
    ensures ReadAs(Kinds(v.typ), f, FieldsOf(v)) && v == ViewOf(v.typ, FieldsOf(v))
  {
    match v.typ {
    case DynamicFee => DynamicFeeSays(f, v);
    case BlobTx => BlobSays(f, v);
    case SetCode => SetCodeSays(f, v);
    case _ => OsakaSays(f, v);
    }
    FeeMarketFilled(f, v);
  }

  /** Fields a type does not have are blank, so the view is filled from its own fields. */
  lemma FeeMarketFilled(f: seq<Item>, v: View)
    requires v.typ != Legacy && v.typ != AccessList && Says(f, v)
    ensures |FieldsOf(v)| == |Kinds(v.typ)| && v == ViewOf(v.typ, FieldsOf(v))
  {
  }

  lemma FeeMarketSaid(f: seq<Item>, v: View)
    requires v.typ != Legacy && v.typ != AccessList
    requires ReadAs(Kinds(v.typ), f, FieldsOf(v)) && v == ViewOf(v.typ, FieldsOf(v))
    ensures Says(f, v)
  {
    match v.typ
    case DynamicFee => DynamicFeeSaid(f, v);
    case BlobTx => BlobSaid(f, v);
    case SetCode => SetCodeSaid(f, v);
    case _ => OsakaSaid(f, v);
  }

  lemma BodyIsRead(t: Type, whole: Bytes, v: View)
    requires ParseBody(t, whole) == Some(v)
    ensures IsList(whole) && v.typ == t && Items(Decode(whole).value.payload).Some? && ListsOk(v)
    ensures Says(Items(Decode(whole).value.payload).value, v)
  {
    RawIsPrefix(whole);
    var payload := Decode(whole).value.payload;
    var vs := ParseFields(Kinds(t), payload).value;
    ParsedByPosition(Kinds(t), payload, vs);
    ReadIsTagged(Kinds(t), Items(payload).value, vs);
    ViewKeeps(t, vs);
    SaysWhatIsRead(Items(payload).value, v);
  }

  lemma BodyReads(whole: Bytes, v: View)
    requires IsList(whole) && Items(Decode(whole).value.payload).Some? && ListsOk(v)
    requires Says(Items(Decode(whole).value.payload).value, v)
    ensures ParseBody(v.typ, whole) == Some(v)
  {
    var payload := Decode(whole).value.payload;
    SaysWhatIsRead(Items(payload).value, v);
    ParsedByPosition(Kinds(v.typ), payload, FieldsOf(v));
  }

  lemma LeadIsType(lead: Byte, t: Type)
    ensures Leads(t, lead) <==> TypeOf(lead) == Some(t)
  {
  }

  /** An envelope is parsed to a view exactly when its bytes say that view. */
  lemma ParsesWhatItSays(env: Bytes, v: View)
    ensures Parse(env) == Some(v) <==> EnvelopeSays(env, v)
  {
    if Parse(env) == Some(v) {
      var t := TypeOf(env[0]).value;
      BodyIsRead(t, if t == Legacy then env else env[1..], v);
      LeadIsType(env[0], t);
    }
    if EnvelopeSays(env, v) {
      LeadIsType(env[0], v.typ);
      BodyReads(if v.typ == Legacy then env else env[1..], v);
    }
  }

  /** The constructor's loop body: lead byte, outer list, fields, nested lists. */
  method ReadEnvelope(env: Bytes) returns (r: Option<View>)
    ensures r == Parse(env)
    ensures r.Some? ==> EnvelopeSays(env, r.value)
    ensures r.None? ==> forall v :: !EnvelopeSays(env, v)
  {
    forall v ensures Parse(env) == Some(v) <==> EnvelopeSays(env, v) { ParsesWhatItSays(env, v); }
    if env == [] { return None; }
    var t := TypeOf(env[0]);
    if t.None? { return None; }
    var whole := if t.value == Legacy then env else env[1..];
    var outer := DecodeItem(whole);
    if outer.None? || outer.value.kind != List || |outer.value.raw| != |whole| { return None; }
    var fields := ReadFields(Kinds(t.value), outer.value.payload);
    if fields.None? { return None; }
    ParsedLength(Kinds(t.value), outer.value.payload);
    var v := ViewOf(t.value, fields.value);
    if v.typ != Legacy {
      if !IsList(v.accessList) { return None; }
      var listed := CheckAccessList(v.accessList);
      if !listed { return None; }
    }
    if v.typ == SetCode {
      if !IsList(v.extraList) { return None; }
      var tuples := CheckAuthorizations(v.extraList);
      if tuples.None? { return None; }
    }
    r := Some(v);
  }

  function Envelope(v: View): Bytes {
    TypePrefix(v.typ) + Encode(List, Print(FieldsOf(v)))
  }

  lemma BodyCanonical(t: Type, whole: Bytes)
    requires ParseBody(t, whole).Some? && |whole| < MAX_LENGTH
    ensures var v := ParseBody(t, whole).value;
            v.typ == t && whole == Encode(List, Print(FieldsOf(v)))
  {
    var outer := Decode(whole).value;
    PayloadShort(whole);
    EncodeDecode(whole);
    PrintParsed(Kinds(t), outer.payload);
    ViewInverse(t, ParseFields(Kinds(t), outer.payload).value);
    assert outer.raw == whole;
  }

  lemma PrefixRejoined(env: Bytes, t: Type)
    requires env != [] && TypeOf(env[0]) == Some(t)
    ensures env == TypePrefix(t) + (if t == Legacy then env else env[1..])
  {
    assert t != Legacy ==> TypePrefix(t) == [env[0]];
    assert env == [env[0]] + env[1..];
  }

  /** An accepted envelope is byte for byte the canonical encoding of its parsed fields. */
  lemma EnvelopeCanonical(env: Bytes)
    requires Parse(env).Some? && |env| < MAX_LENGTH
    ensures env == Envelope(Parse(env).value)
  {
    var t := TypeOf(env[0]).value;
    var whole := if t == Legacy then env else env[1..];
    PrefixRejoined(env, t);
    BodyCanonical(t, whole);
    var v := ParseBody(t, whole).value;
    assert Parse(env).value == v;
  }

  /** Equal views, equal envelopes: the parsed view determines the bytes. */
  lemma ViewDeterminesEnvelope(a: Bytes, b: Bytes)
    requires Parse(a).Some? && Parse(a) == Parse(b) && |a| < MAX_LENGTH && |b| < MAX_LENGTH
    ensures a == b
  {
    EnvelopeCanonical(a);
    EnvelopeCanonical(b);
  }

  /** A view that some parser could have filled. */
  predicate Proper(v: View) {
    && AllFit(Kinds(v.typ), FieldsOf(v)) && v == ViewOf(v.typ, FieldsOf(v))
    && ListsOk(v) && |Envelope(v)| < MAX_LENGTH
  }

  lemma ListLead(payload: Bytes)
    ensures Encode(List, payload) != [] && Encode(List, payload)[0] >= 0xc0
    ensures |payload| <= |Encode(List, payload)|
  {
  }

  lemma BodyParses(v: View)
    requires AllFit(Kinds(v.typ), FieldsOf(v)) && v == ViewOf(v.typ, FieldsOf(v)) && ListsOk(v)
    requires |Print(FieldsOf(v))| < MAX_LENGTH
    ensures ParseBody(v.typ, Encode(List, Print(FieldsOf(v)))) == Some(v)
  {
    var payload := Print(FieldsOf(v));
    var whole := Encode(List, payload);
    DecodeEncode(List, payload, []);
    assert whole + [] == whole;
    ParsePrinted(Kinds(v.typ), FieldsOf(v));
  }

  /** Every proper view is printed to an envelope that parses back to it. */
  lemma ParseEnvelope(v: View)
    requires Proper(v)
    ensures Parse(Envelope(v)) == Some(v)
  {
    var payload := Print(FieldsOf(v));
    ListLead(payload);
    BodyParses(v);
    var whole, env := Encode(List, payload), Envelope(v);
    assert TypeOf(env[0]) == Some(v.typ) && (if v.typ == Legacy then env else env[1..]) == whole by {
      EnvelopeLead(v.typ, whole);
    }
  }

  lemma EnvelopeLead(t: Type, whole: Bytes)
    requires whole != [] && whole[0] >= 0xc0
    ensures var env := TypePrefix(t) + whole;
            env != [] && TypeOf(env[0]) == Some(t) && (if t == Legacy then env else env[1..]) == whole
  {
    assert [] + whole == whole;
  }

  // ----- what is signed -----------------------------------------------------------------------------------

  /** The preimage of the signing hash, from the view. */
  function SigningPreimage(v: View): Bytes {
    match v.typ
    case Legacy =>
      if v.parity >= 35 then Encode(List, Print(Unsigned(v) + [Num(v.chainId), Num(0), Num(0)]))
      else Encode(List, Print(Unsigned(v)))
    case _ => TypePrefix(v.typ) + Encode(List, Print(Unsigned(v)))
  }

  /** The signed bytes are the envelope's own field bytes without the signature's; a
      legacy transaction with replay protection signs the chain id and two zeros in
      their place. */
  lemma SignsOwnBytes(env: Bytes)
    requires Parse(env).Some? && |env| < MAX_LENGTH
    ensures var v := Parse(env).value;
            var fields, signature := Print(Unsigned(v)), Print(Signature(v));
            && env == TypePrefix(v.typ) + Encode(List, fields + signature)
            && SigningPreimage(v) == TypePrefix(v.typ) + Encode(List,
                 if v.typ == Legacy && v.parity >= 35 then fields + Print([Num(v.chainId), Num(0), Num(0)]) else fields)
  {
    EnvelopeCanonical(env);
    var v := Parse(env).value;
    PrintAppend(Unsigned(v), Signature(v));
    PrintAppend(Unsigned(v), [Num(v.chainId), Num(0), Num(0)]);
    assert forall b: Bytes :: [] + b == b;
  }

  /** The recovery id; nothing where recovery halts. */
  function RecoveryId(v: View): Option<nat> {
    if v.typ != Legacy then (if v.parity > 1 then None else Some(v.parity))
    else if v.parity == 27 || v.parity == 28 then Some(v.parity - 27)
    else if v.parity >= 35 then Some((v.parity - 35) % 2)
    else None
  }

  /** The number a legacy signature carries comes apart into parity and chain id, and back:
      what is recovered, what the chain id is and what was signed all agree with it. */
  lemma SignatureNumber(env: Bytes, v: View, p: nat)
    requires Parse(env) == Some(v)
    ensures RecoveryId(v) == Some(p) <==>
            p < 2 && v.parity == (if v.typ != Legacy then p else if v.parity < 35 then 27 + p else 35 + 2 * v.chainId + p)
    ensures v.typ == Legacy && v.parity < 35 ==> v.chainId == 0 && SigningPreimage(v) == Encode(List, Print(Unsigned(v)))
    ensures v.typ == Legacy && v.parity >= 35 ==>
            SigningPreimage(v) == Encode(List, Print(Unsigned(v)) + EncodeUint((v.parity - 35) / 2) + [0x80, 0x80])
  {
    HiddenChain(env, v);
    RecoveredParity(v, p);
    SignedChain(v);
  }

  lemma RecoveredParity(v: View, p: nat)
    requires v.typ == Legacy ==> ChainHidden(v)
    ensures RecoveryId(v) == Some(p) <==>
            p < 2 && v.parity == (if v.typ != Legacy then p else if v.parity < 35 then 27 + p else 35 + 2 * v.chainId + p)
  {
  }

  lemma SignedChain(v: View)
    requires v.typ == Legacy ==> ChainHidden(v)
    ensures v.typ == Legacy && v.parity < 35 ==> v.chainId == 0 && SigningPreimage(v) == Encode(List, Print(Unsigned(v)))
    ensures v.typ == Legacy && v.parity >= 35 ==>
            SigningPreimage(v) == Encode(List, Print(Unsigned(v)) + EncodeUint((v.parity - 35) / 2) + [0x80, 0x80])
  {
    if v.typ == Legacy && v.parity >= 35 {
      assert v.chainId == (v.parity - 35) / 2;
      var u := Unsigned(v);
      PrintAppend(u, [Num(v.chainId), Num(0), Num(0)]);
      TrailerBytes(v.chainId);
      var a, b := Print(u), EncodeUint(v.chainId);
      assert a + (b + [0x80, 0x80]) == a + b + [0x80, 0x80];
    }
  }

  lemma HiddenChain(env: Bytes, v: View)
    requires Parse(env) == Some(v)
    ensures v.typ == Legacy ==> ChainHidden(v)
  {
    ParsesWhatItSays(env, v);
  }

  lemma TrailerBytes(chain: nat)
    ensures Print([Num(chain), Num(0), Num(0)]) == EncodeUint(chain) + [0x80, 0x80]
  {
    var zero := Num(0);
    assert PrintField(zero) == [0x80];
    assert [Num(chain), zero, zero][1..] == [zero, zero] && [zero, zero][1..] == [zero] && [zero][1..] == [];
    assert Print([zero]) == [0x80] + [] && Print([zero, zero]) == [0x80] + Print([zero]);
  }

  /** Replay protection: the chain id is signed. */
  predicate Protected(v: View) {
    v.typ != Legacy || v.parity >= 35
  }

  /** What follows the unsigned fields in the signed list. */
  function Trailer(v: View): seq<Value> {
    if v.typ == Legacy && v.parity >= 35 then [Num(v.chainId), Num(0), Num(0)] else []
  }

  lemma PreimageParts(v: View)
    ensures SigningPreimage(v) == TypePrefix(v.typ) + Encode(List, Print(Unsigned(v)) + Print(Trailer(v)))
  {
    PrintAppend(Unsigned(v), Trailer(v));
    assert Unsigned(v) + [] == Unsigned(v);
    assert forall b: Bytes :: [] + b == b;
  }

  /** Printed fields of the same kinds are prefix-free. */
  lemma {:induction false} PrintsApart(kinds: seq<FieldKind>, vs: seq<Value>, ws: seq<Value>, t: Bytes, t': Bytes)
    requires AllFit(kinds, vs) && AllFit(kinds, ws) && Print(vs) + t == Print(ws) + t'
    ensures vs == ws && t == t'
    decreases |kinds|
  {
    if kinds == [] {
      assert [] + t == t && [] + t' == t';
    } else {
      FitsRest(kinds, vs, t);
      FitsRest(kinds, ws, t');
      FieldsApart(kinds[0], vs[0], ws[0], Print(vs[1..]) + t, Print(ws[1..]) + t');
      PrintsApart(kinds[1..], vs[1..], ws[1..], t, t');
      assert vs == [vs[0]] + vs[1..] && ws == [ws[0]] + ws[1..];
    }
  }

  lemma FieldsApart(k: FieldKind, v: Value, w: Value, t: Bytes, t': Bytes)
    requires Fits(k, v) && Fits(k, w) && PrintField(v) + t == PrintField(w) + t'
    ensures v == w && t == t'
  {
    ReadPrint(k, v, t);
    ReadPrint(k, w, t');
    assert t == (PrintField(v) + t)[|PrintField(v)|..];
  }

  /** The fields of an accepted envelope fit their kinds. */
  lemma EnvelopeFits(env: Bytes)
    requires Parse(env).Some? && |env| < MAX_LENGTH
    ensures var v := Parse(env).value;
            && AllFit(UnsignedKinds(v.typ), Unsigned(v)) && v.parity < Pow256(8)
            && (v.typ == Legacy ==> v.chainId == LegacyChain(v.parity))
  {
    var t := TypeOf(env[0]).value;
    var whole := if t == Legacy then env else env[1..];
    var v := ParseBody(t, whole).value;
    assert Parse(env).value == v;
    BodyFits(t, whole);
    UnsignedFits(v);
  }

  lemma UnsignedFits(v: View)
    requires AllFit(Kinds(v.typ), FieldsOf(v)) && |Unsigned(v)| == |Kinds(v.typ)| - 3
    ensures AllFit(UnsignedKinds(v.typ), Unsigned(v)) && v.parity < Pow256(8)
  {
    var kinds, vs, u := Kinds(v.typ), FieldsOf(v), Unsigned(v);
    forall i | 0 <= i < |u| ensures Fits(kinds[i], u[i]) {
      assert Fits(kinds[i], vs[i]) && vs[i] == u[i];
    }
    SignatureKinds(v.typ);
    assert Fits(kinds[|u|], vs[|u|]) && vs[|u|] == Num(v.parity);
  }

  lemma SignatureKinds(t: Type)
    ensures |Kinds(t)| >= 3 && Kinds(t)[|Kinds(t)| - 3] == U64
  {
  }

  function UnsignedKinds(t: Type): seq<FieldKind> {
    Kinds(t)[..|Kinds(t)| - 3]
  }

  lemma BodyFits(t: Type, whole: Bytes)
    requires ParseBody(t, whole).Some? && |whole| < MAX_LENGTH
    ensures var v := ParseBody(t, whole).value;
            && v.typ == t && AllFit(Kinds(t), FieldsOf(v)) && |Unsigned(v)| == |Kinds(t)| - 3
            && (t == Legacy ==> v.chainId == LegacyChain(v.parity))
  {
    var outer := Decode(whole).value;
    PayloadShort(whole);
    PrintParsed(Kinds(t), outer.payload);
    ViewInverse(t, ParseFields(Kinds(t), outer.payload).value);
  }

  lemma TrailerFits(v: View)
    requires v.parity < Pow256(8) && (v.typ == Legacy ==> v.chainId == LegacyChain(v.parity))
    ensures Trailer(v) != [] ==> AllFit([U64, U64, U64], Trailer(v)) && Print(Trailer(v)) != []
  {
    if Trailer(v) != [] {
      NumStands(v.chainId, 8, []);
      assert Print(Trailer(v)) == PrintField(Num(v.chainId)) + Print(Trailer(v)[1..]);
      assert PrintField(Num(v.chainId)) != [];
    }
  }

  /** What a signature covers: equal preimages of two accepted envelopes give the same
      type, the same unsigned fields, and the same replay protection and chain id. */
  lemma PreimageDetermines(a: Bytes, b: Bytes)
    requires Parse(a).Some? && Parse(b).Some? && |a| < MAX_LENGTH && |b| < MAX_LENGTH
    requires SigningPreimage(Parse(a).value) == SigningPreimage(Parse(b).value)
    requires |SigningPreimage(Parse(a).value)| < MAX_LENGTH
    ensures var v, w := Parse(a).value, Parse(b).value;
            && v.typ == w.typ && Unsigned(v) == Unsigned(w)
            && (Protected(v) <==> Protected(w)) && v.chainId == w.chainId
  {
    EnvelopeFits(a);
    EnvelopeFits(b);
    SignedApart(Parse(a).value, Parse(b).value);
  }

  lemma SignedApart(v: View, w: View)
    requires AllFit(UnsignedKinds(v.typ), Unsigned(v)) && AllFit(UnsignedKinds(w.typ), Unsigned(w))
    requires v.parity < Pow256(8) && (v.typ == Legacy ==> v.chainId == LegacyChain(v.parity))
    requires w.parity < Pow256(8) && (w.typ == Legacy ==> w.chainId == LegacyChain(w.parity))
    requires SigningPreimage(v) == SigningPreimage(w) && |SigningPreimage(v)| < MAX_LENGTH
    ensures v.typ == w.typ && Unsigned(v) == Unsigned(w)
    ensures (Protected(v) <==> Protected(w)) && v.chainId == w.chainId
  {
    PreimagesOpen(v, w);
    PrintsApart(UnsignedKinds(v.typ), Unsigned(v), Unsigned(w), Print(Trailer(v)), Print(Trailer(w)));
    TrailerFits(v);
    TrailerFits(w);
    if v.typ == Legacy {
      if Trailer(v) != [] && Trailer(w) != [] {
        PrintsApart([U64, U64, U64], Trailer(v), Trailer(w), [], []);
        assert Trailer(v)[0] == Trailer(w)[0];
      }
    } else {
      assert Unsigned(v)[0] == Num(v.chainId) && Unsigned(w)[0] == Num(w.chainId);
    }
  }

  lemma PreimagesOpen(v: View, w: View)
    requires SigningPreimage(v) == SigningPreimage(w) && |SigningPreimage(v)| < MAX_LENGTH
    ensures v.typ == w.typ && Print(Unsigned(v)) + Print(Trailer(v)) == Print(Unsigned(w)) + Print(Trailer(w))
  {
    PreimageParts(v);
    PreimageParts(w);
    var p, q := Print(Unsigned(v)) + Print(Trailer(v)), Print(Unsigned(w)) + Print(Trailer(w));
    ListLead(p);
    ListLead(q);
    EnvelopeLead(v.typ, Encode(List, p));
    EnvelopeLead(w.typ, Encode(List, q));
    assert Encode(List, p) + [] == Encode(List, q) + [];
    PrefixFree(List, p, List, q, [], []);
  }
}
