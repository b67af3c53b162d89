/** The byte strings the decoder reads, as a grammar: every data item of the subset with every way of writing it, and
    what each one means. */
module CborGrammar {
  import opened Bytes
  import opened Results
  import opened CborValue
  import opened CborDecoder
  import opened CborTheorems
  import Utf8

  /** The five forms of a header: the argument in the initial byte, or in so many bytes behind it. */
  datatype Form = Immediate | OneByte | TwoBytes | FourBytes | EightBytes

  /** A data item as it is written, in any form its argument fits. */
  datatype Item =
    | Unsigned(form: Form, n: nat)
    | Negative(form: Form, n: nat)
    | ByteString(form: Form, bytes: seq<byte>)
    | TextString(form: Form, bytes: seq<byte>)
    | Array(form: Form, items: seq<Item>)
    | Dictionary(form: Form, pairs: seq<Pair>)
    | Tagged(form: Form, tag: nat, item: Item)
    | False
    | True
    | Nothing

  datatype Pair = Pair(key: Item, val: Item)

  // ----- writing -----

  predicate Fits(form: Form, n: nat) {
    match form
    case Immediate => n < 24
    case OneByte => n < 0x100
    case TwoBytes => n < 0x1_0000
    case FourBytes => n < 0x1_0000_0000
    case EightBytes => n < TWO_TO_64
  }

  function Head(major: nat, form: Form, n: nat): (bs: seq<byte>)
    requires major < 8 && Fits(form, n)
    ensures bs != []
  {
    match form
    case Immediate => [major * 32 + n]
    case OneByte => [major * 32 + 24, n]
    case TwoBytes => [major * 32 + 25] + ToBytes(n, 2)
    case FourBytes => [major * 32 + 26] + ToBytes(n, 4)
    case EightBytes => [major * 32 + 27] + ToBytes(n, 8)
  }

  /** Every argument fits its form. */
  predicate Writable(i: Item)
    decreases i
  {
    match i
    case Unsigned(form, n) => Fits(form, n)
    case Negative(form, n) => Fits(form, n)
    case ByteString(form, bs) => Fits(form, |bs|)
    case TextString(form, bs) => Fits(form, |bs|)
    case Array(form, items) => Fits(form, |items|) && forall x | x in items :: Writable(x)
    case Dictionary(form, pairs) => Fits(form, |pairs|) && forall p | p in pairs :: WritablePair(p)
    case Tagged(form, tag, item) => Fits(form, tag) && Writable(item)
    case _ => true
  }

  predicate WritablePair(p: Pair)
    decreases p
  {
    match p
    case Pair(k, v) => Writable(k) && Writable(v)
  }

  function Write(i: Item): (bs: seq<byte>)
    requires Writable(i)
    ensures bs != []
    decreases i
  {
    match i
    case Unsigned(form, n) => Head(0, form, n)
    case Negative(form, n) => Head(1, form, n)
    case ByteString(form, bs) => Head(2, form, |bs|) + bs
    case TextString(form, bs) => Head(3, form, |bs|) + bs
    case Array(form, items) => Head(4, form, |items|) + WriteItems(items)
    case Dictionary(form, pairs) => Head(5, form, |pairs|) + WritePairs(pairs)
    case Tagged(form, tag, item) => Head(6, form, tag) + Write(item)
    case False => [0xF4]
    case True => [0xF5]
    case Nothing => [0xF6]
  }

  function WriteItems(items: seq<Item>): (bs: seq<byte>)
    requires forall x | x in items :: Writable(x)
    decreases items
  {
    if items == [] then [] else Write(items[0]) + WriteItems(items[1..])
  }

  function WritePair(p: Pair): (bs: seq<byte>)
    requires WritablePair(p)
    decreases p
  {
    match p
    case Pair(k, v) => Write(k) + Write(v)
  }

  function WritePairs(pairs: seq<Pair>): (bs: seq<byte>)
    requires forall p | p in pairs :: WritablePair(p)
    decreases pairs
  {
    if pairs == [] then [] else WritePair(pairs[0]) + WritePairs(pairs[1..])
  }

  // ----- meaning -----

  /** The value of an item, or the exception of the first part of it that has none. Header forms and tags leave no
      trace. */
  function Meaning(i: Item): (r: Result<Value, Error>)
    decreases i
  {
    match i
    case Unsigned(_, n) => Success(Int(n))
    case Negative(_, n) => Success(Int(-1 - n))
    case ByteString(_, bs) => Success(Bytes(bs))
    case TextString(_, bs) =>
      (match Utf8.Decode(bs)
       case None => Failure(UnicodeDecodeError)
       case Some(text) => Success(Text(text)))
    case Array(_, items) =>
      (match MeaningOfItems(items)
       case Failure(e) => Failure(e)
       case Success(vs) => Success(List(vs)))
    case Dictionary(_, pairs) =>
      (match MeaningOfPairs(pairs)
       case Failure(e) => Failure(e)
       case Success(es) => Success(Map(Assigned(es))))
    case Tagged(_, _, item) => Meaning(item)
    case False => Success(Bool(false))
    case True => Success(Bool(true))
    case Nothing => Success(Null)
  }

  function MeaningOfItems(items: seq<Item>): (r: Result<seq<Value>, Error>)
    decreases items
  {
    if items == [] then Success([])
    else
      match Meaning(items[0])
      case Failure(e) => Failure(e)
      case Success(v) =>
        match MeaningOfItems(items[1..])
        case Failure(e) => Failure(e)
        case Success(vs) => Success([v] + vs)
  }

  /** A list or a dictionary is no key. */
  function MeaningOfPair(p: Pair): (r: Result<Entry, Error>)
    decreases p
  {
    match p
    case Pair(key, val) =>
      match Meaning(key)
      case Failure(e) => Failure(e)
      case Success(k) =>
        match Meaning(val)
        case Failure(e) => Failure(e)
        case Success(v) => if k.List? || k.Map? then Failure(UnhashableKey) else Success(Entry(k, v))
  }

  function MeaningOfPairs(pairs: seq<Pair>): (r: Result<seq<Entry>, Error>)
    decreases pairs
  {
    if pairs == [] then Success([])
    else
      match MeaningOfPair(pairs[0])
      case Failure(e) => Failure(e)
      case Success(e) =>
        match MeaningOfPairs(pairs[1..])
        case Failure(error) => Failure(error)
        case Success(es) => Success([e] + es)
  }

  // ----- dictionaries -----

  /** The dictionary that assigning these items one after the other makes. */
  function Assigned(es: seq<Entry>): (d: seq<Entry>) {
    if es == [] then [] else SetItem(Assigned(es[..|es| - 1]), es[|es| - 1].key, es[|es| - 1].val)
  }

  /** Item `j` is the first that has its key. */
  predicate IsFirst(es: seq<Entry>, j: nat)
    requires j < |es|
  {
    forall i | 0 <= i < j :: !SameKey(es[i].key, es[j].key)
  }

  /** `v` belongs to the last item with this key. */
  ghost predicate IsLastValue(es: seq<Entry>, k: Value, v: Value) {
    exists j | 0 <= j < |es| :: IsLast(es, j, k) && es[j].val == v
  }

  predicate IsLast(es: seq<Entry>, j: nat, k: Value)
    requires j < |es|
  {
    SameKey(es[j].key, k) && forall i | j < i < |es| :: !SameKey(es[i].key, k)
  }

  /** This key comes from item `j`: the first that has it, spelled like it. */
  predicate ComesFrom(es: seq<Entry>, k: Value, j: nat) {
    j < |es| && IsFirst(es, j) && k == es[j].key
  }

  predicate Increasing(at: seq<nat>) {
    forall i, j | 0 <= i < j < |at| :: at[i] < at[j]
  }

  /** Entry `i` of `d` has its key from item `at[i]`, in the same order. */
  predicate KeysOfFirsts(es: seq<Entry>, d: seq<Entry>, at: seq<nat>) {
    && |at| == |d| && Increasing(at)
    && forall i {:trigger ComesFrom(es, d[i].key, at[i])} | 0 <= i < |d| :: ComesFrom(es, d[i].key, at[i])
  }

  ghost predicate LastValues(es: seq<Entry>, d: seq<Entry>) {
    forall i {:trigger IsLastValue(es, d[i].key, d[i].val)} | 0 <= i < |d| :: IsLastValue(es, d[i].key, d[i].val)
  }

  predicate HasKey(d: seq<Entry>, k: Value) {
    exists i | 0 <= i < |d| :: SameKey(d[i].key, k)
  }

  predicate NoKeyMissing(es: seq<Entry>, d: seq<Entry>) {
    forall j {:trigger HasKey(d, es[j].key)} | 0 <= j < |es| :: HasKey(d, es[j].key)
  }

  /** `d` is the dictionary of these items: every key once, at the place and in the spelling of the first item that has
      it, with the value of the last one. */
  ghost predicate IsDictionaryOf(es: seq<Entry>, d: seq<Entry>, at: seq<nat>) {
    DistinctKeys(d) && KeysOfFirsts(es, d, at) && LastValues(es, d) && NoKeyMissing(es, d)
  }

  lemma SameKeyTrans(k: Value, k': Value, k'': Value)
    requires SameKey(k, k')
    ensures SameKey(k, k'') <==> SameKey(k', k'')
  {
  }

  lemma LastStays(es: seq<Entry>, e: Entry, k: Value, v: Value)
    requires IsLastValue(es, k, v) && !SameKey(k, e.key)
    ensures IsLastValue(es + [e], k, v)
  {
    var j :| 0 <= j < |es| && IsLast(es, j, k) && es[j].val == v;
    assert (es + [e])[j] == es[j];
    assert IsLast(es + [e], j, k);
  }

  lemma LastValuesStay(es: seq<Entry>, e: Entry, d: seq<Entry>)
    requires DistinctKeys(d) && LastValues(es, d)
    ensures LastValues(es + [e], SetItem(d, e.key, e.val))
  {
    var d' := SetItem(d, e.key, e.val);
    SetItemExactly(d, e.key, e.val);
    forall i | 0 <= i < |d'| ensures IsLastValue(es + [e], d'[i].key, d'[i].val) {
      if SameKey(d'[i].key, e.key) {
        assert IsLast(es + [e], |es|, d'[i].key);
      } else {
        assert IsLastValue(es, d[i].key, d[i].val);
        LastStays(es, e, d[i].key, d[i].val);
      }
    }
  }

  lemma NoneGoesMissing(es: seq<Entry>, e: Entry, d: seq<Entry>)
    requires DistinctKeys(d) && NoKeyMissing(es, d)
    ensures NoKeyMissing(es + [e], SetItem(d, e.key, e.val))
  {
    var d' := SetItem(d, e.key, e.val);
    SetItemExactly(d, e.key, e.val);
    forall j | 0 <= j < |es + [e]| ensures HasKey(d', (es + [e])[j].key) {
      if j < |es| {
        assert HasKey(d, es[j].key);
        var i :| 0 <= i < |d| && SameKey(d[i].key, es[j].key);
        assert SameKey(d'[i].key, es[j].key);
      } else if |d'| > |d| {
        assert SameKey(d'[|d|].key, e.key);
      } else {
        var i :| 0 <= i < |d| && SameKey(d[i].key, e.key);
        assert SameKey(d'[i].key, e.key);
      }
    }
  }

  lemma FirstStays(es: seq<Entry>, e: Entry, k: Value, j: nat)
    requires ComesFrom(es, k, j)
    ensures ComesFrom(es + [e], k, j)
  {
    assert forall i | 0 <= i < |es| :: (es + [e])[i] == es[i];
  }

  lemma NewKeyIsFirst(es: seq<Entry>, e: Entry, d: seq<Entry>)
    requires NoKeyMissing(es, d) && !HasKey(d, e.key)
    ensures ComesFrom(es + [e], e.key, |es|)
  {
    forall j | 0 <= j < |es| ensures !SameKey((es + [e])[j].key, e.key) {
      assert HasKey(d, es[j].key);
      var i :| 0 <= i < |d| && SameKey(d[i].key, es[j].key);
      SameKeyTrans(d[i].key, es[j].key, e.key);
    }
  }

  /** `d'` is `d` with the same keys, or with this one more. */
  predicate KeepsKeys(d: seq<Entry>, d': seq<Entry>, k: Value) {
    && |d| <= |d'| <= |d| + 1
    && (forall i | 0 <= i < |d| :: d'[i].key == d[i].key)
    && (|d'| > |d| ==> d'[|d|].key == k && !HasKey(d, k))
  }

  lemma SetItemKeepsKeys(d: seq<Entry>, k: Value, v: Value)
    requires DistinctKeys(d)
    ensures KeepsKeys(d, SetItem(d, k, v), k)
  {
    SetItemExactly(d, k, v);
  }

  /** The items that the keys come from, with the last item if its key is new. */
  function ExtendAt(at: seq<nat>, d: seq<Entry>, d': seq<Entry>, n: nat): (at': seq<nat>) {
    if |d'| > |d| then at + [n] else at
  }

  lemma IncreasingMore(es: seq<Entry>, d: seq<Entry>, at: seq<nat>)
    requires KeysOfFirsts(es, d, at)
    ensures Increasing(at + [|es|])
  {
    forall i | 0 <= i < |at| ensures at[i] < |es| {
      assert ComesFrom(es, d[i].key, at[i]);
    }
  }

  lemma FirstsStay(es: seq<Entry>, e: Entry, d: seq<Entry>, at: seq<nat>, d': seq<Entry>)
    requires KeysOfFirsts(es, d, at) && NoKeyMissing(es, d) && KeepsKeys(d, d', e.key)
    ensures KeysOfFirsts(es + [e], d', ExtendAt(at, d, d', |es|))
  {
    var at' := ExtendAt(at, d, d', |es|);
    IncreasingMore(es, d, at);
    if |d'| > |d| { NewKeyIsFirst(es, e, d); }
    forall i | 0 <= i < |d'| ensures ComesFrom(es + [e], d'[i].key, at'[i]) {
      if i < |d| {
        assert ComesFrom(es, d[i].key, at[i]);
        FirstStays(es, e, d[i].key, at[i]);
      }
    }
  }

  lemma OneMoreItem(es: seq<Entry>, e: Entry, d: seq<Entry>, at: seq<nat>, d': seq<Entry>)
    requires IsDictionaryOf(es, d, at) && d' == SetItem(d, e.key, e.val)
    ensures IsDictionaryOf(es + [e], d', ExtendAt(at, d, d', |es|))
  {
    SetItemKeepsKeys(d, e.key, e.val);
    FirstsStay(es, e, d, at, d');
    LastValuesStay(es, e, d);
    NoneGoesMissing(es, e, d);
    SetItemKeys(d, e.key, e.val);
  }

  lemma SameItems(es: seq<Entry>, es': seq<Entry>, d: seq<Entry>, at: seq<nat>)
    requires IsDictionaryOf(es, d, at) && es == es'
    ensures IsDictionaryOf(es', d, at)
  {
  }

  /** The dictionary that assignment makes is the dictionary of its items. */
  lemma {:induction false} AssignedExactly(es: seq<Entry>) returns (d: seq<Entry>, at: seq<nat>)
    ensures d == Assigned(es) && IsDictionaryOf(es, d, at)
  {
    if es == [] {
      d, at := [], [];
    } else {
      var front, e := es[..|es| - 1], es[|es| - 1];
      var d0, before := AssignedExactly(front);
      d := SetItem(d0, e.key, e.val);
      at := ExtendAt(before, d0, d, |front|);
      OneMoreItem(front, e, d0, before, d);
      SameItems(front + [e], es, d, at);
    }
  }

  // ----- whatever is written is read as it is meant -----

  /** The argument of a header is read back in any form. */
  lemma ReadArgument(major: nat, form: Form, n: nat, s: seq<byte>)
    requires major < 8 && Fits(form, n)
    ensures var h := Head(major, form, n); h[0] / 32 == major && ReadLength(h[0] % 32, h[1..] + s) == Ok(n, s)
  {
    Pow256Values();
    var h := Head(major, form, n);
    if form == Immediate {
      assert h[1..] + s == s;
    } else {
      FromToBytes(n, |h| - 1);
      assert h[1..] == ToBytes(n, |h| - 1) by {
        if form == OneByte { assert ToBytes(n / 256, 0) == [] && ToBytes(n, 1) == [n]; }
      }
      ReadExactly(h[1..], s);
    }
  }

  /** A header in any form leaves the decoder with its content. */
  lemma ReadHead(major: nat, form: Form, n: nat, s: seq<byte>)
    requires major < 7 && Fits(form, n)
    ensures Decode(Head(major, form, n) + s) == Content(major, n, s)
  {
    var h := Head(major, form, n);
    assert (h + s)[0] == h[0] && (h + s)[1..] == h[1..] + s;
    ReadArgument(major, form, n, s);
  }

  /** An outcome is what this meaning promises, with `s` left over. */
  predicate Delivers<T(==)>(r: Outcome<T>, meaning: Result<T, Error>, s: seq<byte>) {
    match meaning
    case Success(v) => r == Ok(v, s)
    case Failure(e) => r == Fail(e)
  }

  /** The decoder gives every item its meaning, in whatever forms it is written, and stops at its end. */
  lemma {:induction false} ReadsWritten(i: Item, s: seq<byte>)
    requires Writable(i)
    ensures Delivers(Decode(Write(i) + s), Meaning(i), s)
    decreases i, 1
  {
    match i
    case Unsigned(form, n) => ReadHead(0, form, n, s);
    case Negative(form, n) => ReadHead(1, form, n, s);
    case ByteString(form, bs) => ReadsBytes(2, form, bs, s);
    case TextString(form, bs) => ReadsBytes(3, form, bs, s);
    case Array(form, items) => ReadsArray(form, items, s);
    case Dictionary(form, pairs) => ReadsDictionary(form, pairs, s);
    case Tagged(form, tag, item) => ReadsTagged(form, tag, item, s);
    case _ => assert (Write(i) + s)[1..] == s;
  }

  lemma {:induction false} ReadsTagged(form: Form, tag: nat, item: Item, s: seq<byte>)
    requires Writable(Tagged(form, tag, item))
    ensures Delivers(Decode(Write(Tagged(form, tag, item)) + s), Meaning(item), s)
    decreases Tagged(form, tag, item), 0
  {
    assert Write(Tagged(form, tag, item)) + s == Head(6, form, tag) + (Write(item) + s);
    ReadHead(6, form, tag, Write(item) + s);
    ReadsWritten(item, s);
  }

  lemma {:induction false} ReadsArray(form: Form, items: seq<Item>, s: seq<byte>)
    requires Writable(Array(form, items))
    ensures Delivers(Decode(Write(Array(form, items)) + s), Meaning(Array(form, items)), s)
    decreases Array(form, items), 0
  {
    var i, body := Array(form, items), WriteItems(items);
    assert Write(i) + s == Head(4, form, |items|) + (body + s);
    ReadHead(4, form, |items|, body + s);
    ReadsItems(items, s, []);
    if MeaningOfItems(items).Success? {
      assert [] + MeaningOfItems(items).value == MeaningOfItems(items).value;
    }
  }

  lemma {:induction false} ReadsDictionary(form: Form, pairs: seq<Pair>, s: seq<byte>)
    requires Writable(Dictionary(form, pairs))
    ensures Delivers(Decode(Write(Dictionary(form, pairs)) + s), Meaning(Dictionary(form, pairs)), s)
    decreases Dictionary(form, pairs), 0
  {
    var i, body := Dictionary(form, pairs), WritePairs(pairs);
    assert Write(i) + s == Head(5, form, |pairs|) + (body + s);
    ReadHead(5, form, |pairs|, body + s);
    ReadsPairs(pairs, s, []);
    if MeaningOfPairs(pairs).Success? {
      assert [] + MeaningOfPairs(pairs).value == MeaningOfPairs(pairs).value;
    }
  }

  lemma ReadsBytes(major: nat, form: Form, bs: seq<byte>, s: seq<byte>)
    requires 2 <= major <= 3 && Fits(form, |bs|)
    ensures var i := if major == 2 then ByteString(form, bs) else TextString(form, bs);
            Delivers(Decode(Write(i) + s), Meaning(i), s)
  {
    assert Head(major, form, |bs|) + bs + s == Head(major, form, |bs|) + (bs + s);
    ReadHead(major, form, |bs|, bs + s);
    ReadExactly(bs, s);
  }

  lemma {:induction false} ReadsItems(items: seq<Item>, s: seq<byte>, acc: seq<Value>)
    requires forall x | x in items :: Writable(x)
    ensures var r := DecodeItems(|items|, WriteItems(items) + s, acc);
            match MeaningOfItems(items)
            case Success(vs) => r == Ok(acc + vs, s)
            case Failure(e) => r == Fail(e)
    decreases items
  {
    if items == [] {
      assert WriteItems(items) + s == s && acc + [] == acc;
    } else {
      var more := WriteItems(items[1..]) + s;
      assert WriteItems(items) + s == Write(items[0]) + more;
      ReadsWritten(items[0], more);
      if Meaning(items[0]).Success? {
        var v := Meaning(items[0]).value;
        ReadsItems(items[1..], s, acc + [v]);
        if MeaningOfItems(items[1..]).Success? {
          assert acc + [v] + MeaningOfItems(items[1..]).value == acc + ([v] + MeaningOfItems(items[1..]).value);
        }
      }
    }
  }

  lemma {:induction false} ReadsPair(p: Pair, s: seq<byte>)
    requires WritablePair(p)
    ensures Delivers(DecodePair(WritePair(p) + s), MeaningOfPair(p), s)
    decreases p
  {
    match p
    case Pair(k, v) =>
      assert WritePair(p) + s == Write(k) + (Write(v) + s);
      ReadsWritten(k, Write(v) + s);
      ReadsWritten(v, s);
  }

  lemma AssignedMore(es: seq<Entry>, e: Entry)
    ensures Assigned(es + [e]) == SetItem(Assigned(es), e.key, e.val)
  {
    assert (es + [e])[..|es|] == es;
  }

  /** The outcome of the loop that has assigned the items `before` already. */
  predicate DeliversPairs(r: Outcome<seq<Entry>>, meaning: Result<seq<Entry>, Error>, before: seq<Entry>,
                          s: seq<byte>) {
    match meaning
    case Success(es) => r == Ok(Assigned(before + es), s)
    case Failure(e) => r == Fail(e)
  }

  /** One turn of the loop: what the rest delivers behind this item, the whole delivers. */
  lemma OneTurn(n: nat, s: seq<byte>, before: seq<Entry>, e: Entry, more: seq<byte>,
                meaning: Result<seq<Entry>, Error>, rest: seq<byte>)
    requires DecodePair(s) == Ok(e, more)
    requires DeliversPairs(DecodeEntries(n, more, Assigned(before + [e])), meaning, before + [e], rest)
    ensures DeliversPairs(DecodeEntries(n + 1, s, Assigned(before)),
                          if meaning.Success? then Success([e] + meaning.value) else meaning, before, rest)
  {
    AssignedMore(before, e);
    if meaning.Success? { assert before + [e] + meaning.value == before + ([e] + meaning.value); }
  }

  lemma {:induction false} ReadsPairs(pairs: seq<Pair>, s: seq<byte>, before: seq<Entry>)
    requires forall p | p in pairs :: WritablePair(p)
    ensures DeliversPairs(DecodeEntries(|pairs|, WritePairs(pairs) + s, Assigned(before)), MeaningOfPairs(pairs),
                          before, s)
    decreases pairs, 1
  {
    if pairs == [] {
      assert WritePairs(pairs) + s == s && before + [] == before;
    } else {
      var more := WritePairs(pairs[1..]) + s;
      assert WritePairs(pairs) + s == WritePair(pairs[0]) + more;
      ReadsPair(pairs[0], more);
      if MeaningOfPair(pairs[0]).Success? {
        var e := MeaningOfPair(pairs[0]).value;
        ReadsPairs(pairs[1..], s, before + [e]);
        OneTurn(|pairs| - 1, WritePairs(pairs) + s, before, e, more, MeaningOfPairs(pairs[1..]), s);
      }
    }
  }

  // ----- whatever is read has been written -----

  /** The form whose header says this. */
  function FormOf(info: nat): Form {
    if info < 24 then Immediate else if info == 24 then OneByte else if info == 25 then TwoBytes
    else if info == 26 then FourBytes else EightBytes
  }

  lemma HeadFound(major: nat, info: nat, s: seq<byte>)
    requires major < 8 && info < 32 && ReadLength(info, s).Ok?
    ensures var Ok(n, rest) := ReadLength(info, s);
            Fits(FormOf(info), n) && [major * 32 + info] + s == Head(major, FormOf(info), n) + rest
  {
    Pow256Values();
    var Ok(n, rest) := ReadLength(info, s);
    if info >= 24 {
      var width := ArgumentWidth(info);
      assert |s[..width]| == width && s == s[..width] + rest;
      ToFromBytes(s[..width]);
      if info == 24 { assert ToBytes(n / 256, 0) == [] && ToBytes(n, 1) == [n]; }
    }
  }

  /** Whatever the decoder accepts is an item, in one of its forms, with this meaning. */
  lemma {:induction false} Found(s: seq<byte>) returns (i: Item)
    requires Decode(s).Ok?
    ensures Writable(i) && s == Write(i) + Decode(s).rest && Meaning(i) == Success(Decode(s).value)
    decreases |s|, 0
  {
    var major, info := s[0] / 32, s[0] % 32;
    if major == 7 {
      i := if info == 20 then False else if info == 21 then True else Nothing;
      assert s == [s[0]] + s[1..];
    } else {
      HeadFound(major, info, s[1..]);
      var Ok(n, rest) := ReadLength(info, s[1..]);
      assert s == [s[0]] + s[1..];
      i := FoundContent(major, FormOf(info), n, rest);
    }
  }

  lemma {:induction false} FoundContent(major: nat, form: Form, n: nat, s: seq<byte>) returns (i: Item)
    requires major < 7 && Fits(form, n) && Content(major, n, s).Ok?
    ensures Writable(i) && Head(major, form, n) + s == Write(i) + Content(major, n, s).rest
    ensures Meaning(i) == Success(Content(major, n, s).value)
    decreases |s|, 4
  {
    if major < 2 {
      i := if major == 0 then Unsigned(form, n) else Negative(form, n);
    } else if major < 4 {
      i := FoundString(major, form, n, s);
    } else if major == 4 {
      i := FoundArray(form, n, s);
    } else if major == 5 {
      i := FoundDictionary(form, n, s);
    } else {
      var item := Found(s);
      i := Tagged(form, n, item);
      Behind(Head(6, form, n), Write(item), Decode(s).rest, s);
    }
  }

  /** What follows a header, cut where its content ends. */
  lemma Behind(head: seq<byte>, body: seq<byte>, rest: seq<byte>, s: seq<byte>)
    requires s == body + rest
    ensures head + s == head + body + rest
  {
  }

  lemma FoundString(major: nat, form: Form, n: nat, s: seq<byte>) returns (i: Item)
    requires 2 <= major < 4 && Fits(form, n) && Content(major, n, s).Ok?
    ensures Writable(i) && Head(major, form, n) + s == Write(i) + Content(major, n, s).rest
    ensures Meaning(i) == Success(Content(major, n, s).value)
  {
    i := if major == 2 then ByteString(form, s[..n]) else TextString(form, s[..n]);
    Behind(Head(major, form, n), s[..n], s[n..], s);
  }

  lemma {:induction false} FoundArray(form: Form, n: nat, s: seq<byte>) returns (i: Item)
    requires Fits(form, n) && DecodeItems(n, s, []).Ok?
    ensures Writable(i) && Head(4, form, n) + s == Write(i) + DecodeItems(n, s, []).rest
    ensures Meaning(i) == Success(List(DecodeItems(n, s, []).value))
    decreases |s|, 3
  {
    var items := FoundItems(n, s, []);
    i := Array(form, items);
    Behind(Head(4, form, n), WriteItems(items), DecodeItems(n, s, []).rest, s);
    assert [] + MeaningOfItems(items).value == MeaningOfItems(items).value;
  }

  lemma {:induction false} FoundDictionary(form: Form, n: nat, s: seq<byte>) returns (i: Item)
    requires Fits(form, n) && DecodeEntries(n, s, []).Ok?
    ensures Writable(i) && Head(5, form, n) + s == Write(i) + DecodeEntries(n, s, []).rest
    ensures Meaning(i) == Success(Map(DecodeEntries(n, s, []).value))
    decreases |s|, 3
  {
    var pairs := FoundPairs(n, s, []);
    i := Dictionary(form, pairs);
    Behind(Head(5, form, n), WritePairs(pairs), DecodeEntries(n, s, []).rest, s);
    assert [] + MeaningOfPairs(pairs).value == MeaningOfPairs(pairs).value;
  }

  lemma {:induction false} FoundItems(n: nat, s: seq<byte>, acc: seq<Value>) returns (items: seq<Item>)
    requires DecodeItems(n, s, acc).Ok?
    ensures |items| == n && forall x | x in items :: Writable(x)
    ensures s == WriteItems(items) + DecodeItems(n, s, acc).rest
    ensures MeaningOfItems(items).Success? && DecodeItems(n, s, acc).value == acc + MeaningOfItems(items).value
    decreases |s|, 1
  {
    if n == 0 {
      items := [];
    } else {
      var first := Found(s);
      var Ok(v, more) := Decode(s);
      var rest := FoundItems(n - 1, more, acc + [v]);
      items := [first] + rest;
      assert items[1..] == rest;
      assert MeaningOfItems(items) == Success([v] + MeaningOfItems(rest).value);
      assert acc + [v] + MeaningOfItems(rest).value == acc + ([v] + MeaningOfItems(rest).value);
      Behind(Write(first), WriteItems(rest), DecodeItems(n - 1, more, acc + [v]).rest, more);
    }
  }

  lemma {:induction false} FoundPair(s: seq<byte>) returns (p: Pair)
    requires DecodePair(s).Ok?
    ensures WritablePair(p) && s == WritePair(p) + DecodePair(s).rest
    ensures MeaningOfPair(p) == Success(DecodePair(s).value)
    decreases |s|, 1
  {
    var k := Found(s);
    var v := Found(Decode(s).rest);
    p := Pair(k, v);
  }

  lemma {:induction false} FoundPairs(n: nat, s: seq<byte>, before: seq<Entry>) returns (pairs: seq<Pair>)
    requires DecodeEntries(n, s, Assigned(before)).Ok?
    ensures |pairs| == n && forall p | p in pairs :: WritablePair(p)
    ensures s == WritePairs(pairs) + DecodeEntries(n, s, Assigned(before)).rest
    ensures MeaningOfPairs(pairs).Success?
    ensures DecodeEntries(n, s, Assigned(before)).value == Assigned(before + MeaningOfPairs(pairs).value)
    decreases |s|, 2
  {
    if n == 0 {
      pairs := [];
      assert before + [] == before;
    } else {
      var first := FoundPair(s);
      var Ok(e, more) := DecodePair(s);
      AssignedMore(before, e);
      var rest := FoundPairs(n - 1, more, before + [e]);
      pairs := [first] + rest;
      assert pairs[1..] == rest;
      assert before + [e] + MeaningOfPairs(rest).value == before + ([e] + MeaningOfPairs(rest).value);
      assert MeaningOfPairs(pairs) == Success([e] + MeaningOfPairs(rest).value);
      Behind(WritePair(first), WritePairs(rest), DecodeEntries(n - 1, more, Assigned(before + [e])).rest, more);
    }
  }

  // ----- exactly -----

  /** The bytes are this item, written in one of its ways, and it means `v`. */
  ghost predicate Spells(s: seq<byte>, i: Item, v: Value) {
    Writable(i) && s == Write(i) && Meaning(i) == Success(v)
  }

  /** A document is accepted with a value exactly if it is one data item that means it. */
  lemma AcceptedExactly(s: seq<byte>, v: Value)
    ensures DecodeAll(s) == Success(v) <==> exists i :: Spells(s, i, v)
  {
    if DecodeAll(s) == Success(v) {
      var i := Found(s);
      assert Write(i) + [] == Write(i);
      assert Spells(s, i, v);
    }
    forall i | Spells(s, i, v) ensures DecodeAll(s) == Success(v) {
      assert s + [] == s;
      ReadsWritten(i, []);
    }
  }

  /** A document that begins with an item fails with the exception of that item, and otherwise for the bytes behind
      it. */
  lemma RefusedBehindItem(i: Item, s: seq<byte>)
    requires Writable(i)
    ensures DecodeAll(Write(i) + s) == if Meaning(i).Failure? || s == [] then Meaning(i) else Failure(AttestationError)
  {
    ReadsWritten(i, s);
  }

  /** Nothing, a reserved or indefinite length, and a simple value other than false, true and null are refused. */
  lemma ReservedHeaders(s: seq<byte>)
    requires s == [] || (s[0] / 32 < 7 && s[0] % 32 >= 28) || (s[0] / 32 == 7 && s[0] % 32 !in {20, 21, 22})
    ensures Decode(s) == Fail(AttestationError)
  {
  }

  /** Pairs that have been written are read as a dictionary: every key at the place and in the spelling of the first
      pair that has it, with the value of the last one. */
  lemma DictionaryRead(form: Form, pairs: seq<Pair>, s: seq<byte>) returns (d: seq<Entry>, at: seq<nat>)
    requires Writable(Dictionary(form, pairs)) && MeaningOfPairs(pairs).Success?
    ensures Decode(Write(Dictionary(form, pairs)) + s) == Ok(Map(d), s)
    ensures IsDictionaryOf(MeaningOfPairs(pairs).value, d, at)
  {
    d, at := AssignedExactly(MeaningOfPairs(pairs).value);
    ReadsWritten(Dictionary(form, pairs), s);
  }

  lemma SmallNumber(n: nat, s: seq<byte>)
    requires n < 24
    ensures Decode([n] + s) == Ok(Int(n), s)
  {
    assert ([n] + s)[1..] == s;
  }

  /** A key that comes twice keeps its last value: 1 is mapped to 2, not to 1. */
  lemma LastValueWins()
    ensures DecodeAll([0xA2, 0x01, 0x01, 0x01, 0x02]) == Success(Map([Entry(Int(1), Int(2))]))
  {
    var s: seq<byte> := [0xA2, 0x01, 0x01, 0x01, 0x02];
    assert s[1..] == [1] + ([1] + ([1] + ([2] + [])));
    SmallNumber(1, [1] + ([1] + ([2] + [])));
    SmallNumber(1, [1] + ([2] + []));
    SmallNumber(1, [2] + []);
    SmallNumber(2, []);
    var first: seq<Entry> := SetItem([], Int(1), Int(1));
    assert first == [Entry(Int(1), Int(1))] && first[1..] == [];
    assert SetItem(first, Int(1), Int(2)) == [Entry(Int(1), Int(2))];
    assert DecodeEntries(1, [1] + ([2] + []), first) == Ok([Entry(Int(1), Int(2))], []);
    assert DecodeEntries(2, s[1..], []) == DecodeEntries(1, [1] + ([2] + []), first);
  }

  /** A tag and a header that is longer than it need be leave no trace. */
  lemma TagAndLongHeader()
    ensures DecodeAll([0xC1, 0x18, 0x01]) == Success(Int(1))
  {
    var s: seq<byte> := [0xC1, 0x18, 0x01];
    assert s[1..] == [0x18, 0x01] && s[1..][1..] == [0x01];
    assert FromBytes([0x01]) == 1 by { FromToBytes(1, 1); assert ToBytes(0, 0) == [] && ToBytes(1, 1) == [1]; }
    var one: seq<byte> := [0x01];
    assert one + [] == one;
    ReadExactly(one, []);
  }
}
