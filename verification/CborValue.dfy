/** The Python values the CBOR subset covers, and the encoder. */
module CborValue {
  import opened Bytes
  import opened Results
  import Utf8

  const TWO_TO_64: int := 0x1_0000_0000_0000_0000

  datatype Value =
    | Null
    | Bool(b: bool)
    | Int(i: int)
    | Bytes(bytes: seq<byte>)
    | Text(text: string)
    | List(items: seq<Value>)
    | Map(entries: seq<Entry>)

  /** One item of a `dict`, which keeps its items in insertion order. */
  datatype Entry = Entry(key: Value, val: Value)

  predicate Hashable(v: Value) {
    !v.List? && !v.Map?
  }

  /** The representative of a key under Python's `==`, which identifies `False` with 0 and `True` with 1. */
  function KeyIdentity(v: Value): Value {
    if v.Bool? then Int(if v.b then 1 else 0) else v
  }

  predicate SameKey(k: Value, k': Value) {
    KeyIdentity(k) == KeyIdentity(k')
  }

  predicate DistinctKeys(es: seq<Entry>) {
    forall i, j | 0 <= i < j < |es| :: !SameKey(es[i].key, es[j].key)
  }

  /** `d[k] = v`: a key that is already there keeps its position and its spelling. */
  function SetItem(es: seq<Entry>, k: Value, v: Value): (r: seq<Entry>)
    ensures |es| <= |r| <= |es| + 1
  {
    if es == [] then [Entry(k, v)]
    else if SameKey(es[0].key, k) then [Entry(es[0].key, v)] + es[1..]
    else [es[0]] + SetItem(es[1..], k, v)
  }

  /** `d.get(k)` for a text key; `Null` stands for both an absent key and a stored `None`. */
  function Field(es: seq<Entry>, k: string): Value {
    if es == [] then Null
    else if es[0].key == Text(k) then es[0].val
    else Field(es[1..], k)
  }

  /** What the encoder accepts: integers and lengths that fit 64 bits, in values whose maps are real
      dictionaries (hashable, pairwise different keys). */
  predicate Encodable(v: Value)
    decreases v
  {
    match v
    case Null => true
    case Bool(_) => true
    case Int(i) => -TWO_TO_64 <= i < TWO_TO_64
    case Bytes(bs) => |bs| < TWO_TO_64
    case Text(s) => |Utf8.Encode(s)| < TWO_TO_64
    case List(vs) => |vs| < TWO_TO_64 && forall x | x in vs :: Encodable(x)
    case Map(es) => |es| < TWO_TO_64 && DistinctKeys(es) && forall e | e in es :: EncodableEntry(e)
  }

  predicate EncodableEntry(e: Entry)
    decreases e
  {
    match e
    case Entry(k, v) => Hashable(k) && Encodable(k) && Encodable(v)
  }

  /** `_encode_length`: major type and argument in the shortest of the five header forms. */
  function Header(major: nat, n: nat): (bs: seq<byte>)
    requires major < 8 && n < TWO_TO_64
    ensures 1 <= |bs| <= 9
  {
    if n < 24 then [major * 32 + n]
    else if n < 0x100 then [major * 32 + 24, n]
    else if n < 0x1_0000 then [major * 32 + 25] + ToBytes(n, 2)
    else if n < 0x1_0000_0000 then [major * 32 + 26] + ToBytes(n, 4)
    else [major * 32 + 27] + ToBytes(n, 8)
  }

  /** `_cbor_encode`. */
  function Encode(v: Value): (bs: seq<byte>)
    requires Encodable(v)
    ensures bs != []
    decreases v
  {
    match v
    case Bool(b) => [if b then 0xF5 else 0xF4]
    case Null => [0xF6]
    case Int(i) => if i >= 0 then Header(0, i) else Header(1, -1 - i)
    case Bytes(bs) => Header(2, |bs|) + bs
    case Text(s) => Header(3, |Utf8.Encode(s)|) + Utf8.Encode(s)
    case List(vs) => Header(4, |vs|) + EncodeItems(vs)
    case Map(es) => Header(5, |es|) + EncodeEntries(es)
  }

  function EncodeItems(vs: seq<Value>): (bs: seq<byte>)
    requires forall x | x in vs :: Encodable(x)
    decreases vs
  {
    if vs == [] then [] else Encode(vs[0]) + EncodeItems(vs[1..])
  }

  function EncodeEntry(e: Entry): (bs: seq<byte>)
    requires EncodableEntry(e)
    decreases e
  {
    match e
    case Entry(k, v) => Encode(k) + Encode(v)
  }

  function EncodeEntries(es: seq<Entry>): (bs: seq<byte>)
    requires forall e | e in es :: EncodableEntry(e)
    decreases es
  {
    if es == [] then [] else EncodeEntry(es[0]) + EncodeEntries(es[1..])
  }

  /** The number of values in `v`, itself included. */
  function Nodes(v: Value): (n: nat)
    ensures n >= 1
    decreases v
  {
    match v
    case List(vs) => 1 + NodesOfItems(vs)
    case Map(es) => 1 + NodesOfEntries(es)
    case _ => 1
  }

  function NodesOfItems(vs: seq<Value>): nat
    decreases vs
  {
    if vs == [] then 0 else Nodes(vs[0]) + NodesOfItems(vs[1..])
  }

  function NodesOfEntries(es: seq<Entry>): nat
    decreases es
  {
    if es == [] then 0 else NodesOfEntry(es[0]) + NodesOfEntries(es[1..])
  }

  function NodesOfEntry(e: Entry): nat
    decreases e
  {
    match e
    case Entry(k, v) => Nodes(k) + Nodes(v)
  }

  // ----- SetItem as a dictionary update -----

  lemma {:induction false} SetItemAppends(es: seq<Entry>, k: Value, v: Value)
    requires forall e | e in es :: !SameKey(e.key, k)
    ensures SetItem(es, k, v) == es + [Entry(k, v)]
  {
    if es != [] {
      assert es[0] in es;
      SetItemAppends(es[1..], k, v);
    }
  }

  /** Keys are compared as Python compares them: equal, or a boolean and its number. */
  lemma SameKeyExactly(k: Value, k': Value)
    ensures SameKey(k, k') <==>
              || k == k'
              || (k == Bool(false) && k' == Int(0)) || (k == Int(0) && k' == Bool(false))
              || (k == Bool(true) && k' == Int(1)) || (k == Int(1) && k' == Bool(true))
  {
  }

  /** A key that is there keeps its position and its spelling and gets the value; every other entry stays as it is;
      and a key that is not there comes last. */
  lemma {:induction false} SetItemExactly(es: seq<Entry>, k: Value, v: Value)
    requires DistinctKeys(es)
    ensures var r := SetItem(es, k, v);
            && |r| == |es| + (if exists i | 0 <= i < |es| :: SameKey(es[i].key, k) then 0 else 1)
            && (forall i | 0 <= i < |es| ::
                  r[i] == Entry(es[i].key, if SameKey(es[i].key, k) then v else es[i].val))
            && (|r| > |es| ==> r[|es|] == Entry(k, v))
  {
    if es != [] {
      if SameKey(es[0].key, k) {
        assert forall i | 0 < i < |es| :: !SameKey(es[0].key, es[i].key);
      } else {
        SetItemExactly(es[1..], k, v);
        assert forall i | 0 <= i < |es[1..]| :: es[1..][i] == es[i + 1];
        assert forall i | 0 < i < |es| :: es[i] == es[1..][i - 1];
        assert (exists i | 0 <= i < |es| :: SameKey(es[i].key, k))
               <==> exists i | 0 <= i < |es[1..]| :: SameKey(es[1..][i].key, k);
      }
    }
  }

  lemma {:induction false} SetItemKeys(es: seq<Entry>, k: Value, v: Value)
    requires DistinctKeys(es)
    ensures DistinctKeys(SetItem(es, k, v))
    ensures forall e | e in SetItem(es, k, v) :: e in es || SameKey(e.key, k)
  {
    if es != [] {
      var r := SetItem(es, k, v);
      if SameKey(es[0].key, k) {
        assert forall i | 0 <= i < |es| :: r[i].key == es[i].key;
      } else {
        SetItemKeys(es[1..], k, v);
      }
    }
  }

  lemma {:induction false} SetItemEncodable(es: seq<Entry>, k: Value, v: Value)
    requires forall e | e in es :: EncodableEntry(e)
    requires EncodableEntry(Entry(k, v))
    ensures forall e | e in SetItem(es, k, v) :: EncodableEntry(e)
  {
    if es != [] {
      assert es[0] in es;
      SetItemEncodable(es[1..], k, v);
    }
  }

  // ----- the shape of encodings -----

  lemma {:induction false} EncodeItemsAppend(vs: seq<Value>, v: Value)
    requires forall x | x in vs + [v] :: Encodable(x)
    ensures forall x | x in vs :: Encodable(x)
    ensures Encodable(v)
    ensures EncodeItems(vs + [v]) == EncodeItems(vs) + Encode(v)
  {
    assert v in vs + [v];
    assert forall x | x in vs :: x in vs + [v];
    if vs != [] {
      assert (vs + [v])[1..] == vs[1..] + [v];
      EncodeItemsAppend(vs[1..], v);
    }
  }

  /** No encoding is shorter than the number of values in it. */
  lemma {:induction false} NodesBound(v: Value)
    requires Encodable(v)
    ensures Nodes(v) <= |Encode(v)|
    decreases v
  {
    match v
    case List(vs) => NodesOfItemsBound(vs);
    case Map(es) => NodesOfEntriesBound(es);
    case _ =>
  }

  lemma {:induction false} NodesOfItemsBound(vs: seq<Value>)
    requires forall x | x in vs :: Encodable(x)
    ensures NodesOfItems(vs) <= |EncodeItems(vs)|
    decreases vs
  {
    if vs != [] {
      NodesBound(vs[0]);
      NodesOfItemsBound(vs[1..]);
    }
  }

  lemma {:induction false} NodesOfEntriesBound(es: seq<Entry>)
    requires forall e | e in es :: EncodableEntry(e)
    ensures NodesOfEntries(es) <= |EncodeEntries(es)|
    decreases es
  {
    if es != [] {
      NodesOfEntryBound(es[0]);
      NodesOfEntriesBound(es[1..]);
    }
  }

  lemma {:induction false} NodesOfEntryBound(e: Entry)
    requires EncodableEntry(e)
    ensures NodesOfEntry(e) <= |EncodeEntry(e)|
    decreases e
  {
    match e
    case Entry(k, v) =>
      NodesBound(k);
      NodesBound(v);
  }
}
