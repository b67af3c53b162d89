/** What encoder and decoder promise each other, for every value and every byte string. */
module CborTheorems {
  import opened Bytes
  import opened Results
  import opened CborValue
  import opened CborDecoder
  import Utf8

  // ----- round trip -----

  lemma Pow256Values()
    ensures Pow256(1) == 0x100 && Pow256(2) == 0x1_0000
    ensures Pow256(4) == 0x1_0000_0000 && Pow256(8) == TWO_TO_64
  {
    assert Pow256(3) == 256 * Pow256(2) && Pow256(4) == 256 * Pow256(3);
    assert Pow256(5) == 256 * Pow256(4) && Pow256(6) == 256 * Pow256(5);
    assert Pow256(7) == 256 * Pow256(6) && Pow256(8) == 256 * Pow256(7);
  }

  /** The decoder reads major type and argument back from the header the encoder writes. */
  lemma ReadHeader(major: nat, n: nat, s: seq<byte>)
    requires major < 8 && n < TWO_TO_64
    ensures var h := Header(major, n);
            && h[0] / 32 == major
            && ReadLength(h[0] % 32, (h + s)[1..]) == Ok(n, s)
  {
    Pow256Values();
    var h := Header(major, n);
    assert (h + s)[1..] == h[1..] + s;
    if n >= 24 {
      var width := |h| - 1;
      FromToBytes(n, width);
      assert h[1..] == ToBytes(n, width) by {
        assert n < 0x100 ==> ToBytes(n / 256, 0) == [] && ToBytes(n, 1) == [n];
      }
      ReadExactly(ToBytes(n, width), s);
    } else {
      assert h[1..] + s == s;
    }
  }

  /** Behind a header the decoder is left with that header's content. */
  lemma DecodeHeader(major: nat, n: nat, body: seq<byte>, s: seq<byte>)
    requires major < 7 && n < TWO_TO_64
    ensures Decode(Header(major, n) + body + s) == Content(major, n, body + s)
  {
    ReadHeader(major, n, body + s);
    assert Header(major, n) + body + s == Header(major, n) + (body + s);
    assert (Header(major, n) + (body + s))[0] == Header(major, n)[0];
  }

  lemma ReadExactly(bs: seq<byte>, s: seq<byte>)
    ensures Read(|bs|, bs + s) == Ok(bs, s)
  {
    assert (bs + s)[..|bs|] == bs && (bs + s)[|bs|..] == s;
  }

  lemma DecodeEncodeSimple(v: Value, s: seq<byte>)
    requires v.Null? || v.Bool?
    ensures Decode(Encode(v) + s) == Ok(v, s)
  {
    assert (Encode(v) + s)[1..] == s;
  }

  lemma DecodeEncodeInt(i: int, s: seq<byte>)
    requires Encodable(Int(i))
    ensures Decode(Encode(Int(i)) + s) == Ok(Int(i), s)
  {
    var major, n := if i >= 0 then 0 else 1, if i >= 0 then i else -1 - i;
    DecodeHeader(major, n, [], s);
    assert Header(major, n) + [] == Header(major, n) && [] + s == s;
  }

  lemma DecodeEncodeBytes(bs: seq<byte>, s: seq<byte>)
    requires Encodable(Bytes(bs))
    ensures Decode(Encode(Bytes(bs)) + s) == Ok(Bytes(bs), s)
  {
    DecodeHeader(2, |bs|, bs, s);
    ReadExactly(bs, s);
  }

  lemma DecodeEncodeText(text: string, s: seq<byte>)
    requires Encodable(Text(text))
    ensures Decode(Encode(Text(text)) + s) == Ok(Text(text), s)
  {
    var bs := Utf8.Encode(text);
    DecodeHeader(3, |bs|, bs, s);
    ReadExactly(bs, s);
    Utf8.DecodeEncode(text);
  }

  /** Decoding behind an encoding returns the value and stops exactly where the encoding ends. */
  lemma {:induction false} DecodeEncode(v: Value, s: seq<byte>)
    requires Encodable(v)
    ensures Decode(Encode(v) + s) == Ok(v, s)
    decreases v
  {
    match v
    case Null => DecodeEncodeSimple(v, s);
    case Bool(_) => DecodeEncodeSimple(v, s);
    case Int(i) => DecodeEncodeInt(i, s);
    case Bytes(bs) => DecodeEncodeBytes(bs, s);
    case Text(text) => DecodeEncodeText(text, s);
    case List(vs) =>
      DecodeEncodeItems(vs, s, []);
      DecodeHeader(4, |vs|, EncodeItems(vs), s);
      assert [] + vs == vs;
    case Map(es) =>
      assert [] + es == es;
      DecodeEncodeEntries(es, s, []);
      DecodeHeader(5, |es|, EncodeEntries(es), s);
  }

  lemma {:induction false} DecodeEncodeItems(vs: seq<Value>, s: seq<byte>, acc: seq<Value>)
    requires forall x | x in vs :: Encodable(x)
    ensures DecodeItems(|vs|, EncodeItems(vs) + s, acc) == Ok(acc + vs, s)
    decreases vs
  {
    if vs == [] {
      assert EncodeItems(vs) + s == s && acc + vs == acc;
    } else {
      var more := EncodeItems(vs[1..]) + s;
      assert EncodeItems(vs) + s == Encode(vs[0]) + more;
      DecodeEncode(vs[0], more);
      DecodeEncodeItems(vs[1..], s, acc + [vs[0]]);
      assert acc + [vs[0]] + vs[1..] == acc + vs;
    }
  }

  lemma {:induction false} DecodeEncodeEntries(es: seq<Entry>, s: seq<byte>, acc: seq<Entry>)
    requires forall e | e in es :: EncodableEntry(e)
    requires DistinctKeys(acc + es)
    ensures DecodeEntries(|es|, EncodeEntries(es) + s, acc) == Ok(acc + es, s)
    decreases es, 1
  {
    if es == [] {
      assert EncodeEntries(es) + s == s && acc + es == acc;
    } else {
      var more := EncodeEntries(es[1..]) + s;
      assert EncodeEntries(es) + s == EncodeEntry(es[0]) + more;
      DecodeEncodeEntry(es[0], more);
      AppendEntry(acc, es);
      DecodeEncodeEntries(es[1..], s, acc + [es[0]]);
    }
  }

  lemma AppendEntry(acc: seq<Entry>, es: seq<Entry>)
    requires es != [] && DistinctKeys(acc + es)
    ensures SetItem(acc, es[0].key, es[0].val) == acc + [es[0]]
    ensures acc + [es[0]] + es[1..] == acc + es
  {
    FreshKey(acc, es);
    SetItemAppends(acc, es[0].key, es[0].val);
  }

  lemma FreshKey(acc: seq<Entry>, es: seq<Entry>)
    requires es != [] && DistinctKeys(acc + es)
    ensures forall e | e in acc :: !SameKey(e.key, es[0].key)
  {
    assert (acc + es)[|acc|] == es[0];
    forall e | e in acc ensures !SameKey(e.key, es[0].key) {
      var i :| 0 <= i < |acc| && acc[i] == e;
      assert (acc + es)[i] == e;
    }
  }

  lemma {:induction false} DecodeEncodeEntry(e: Entry, s: seq<byte>)
    requires EncodableEntry(e)
    ensures DecodePair(EncodeEntry(e) + s) == Ok(e, s)
    decreases e
  {
    match e
    case Entry(k, v) =>
      assert EncodeEntry(e) + s == Encode(k) + (Encode(v) + s);
      DecodeEncode(k, Encode(v) + s);
      DecodeEncode(v, s);
  }

  lemma RoundTrip(v: Value)
    requires Encodable(v)
    ensures DecodeAll(Encode(v)) == Success(v)
  {
    DecodeEncode(v, []);
    assert Encode(v) + [] == Encode(v);
  }

  /** No encoding is a prefix of another one, and different values have different encodings. */
  lemma PrefixFree(v: Value, w: Value, s: seq<byte>, t: seq<byte>)
    requires Encodable(v) && Encodable(w)
    requires Encode(v) + s == Encode(w) + t
    ensures v == w && s == t
  {
    DecodeEncode(v, s);
    DecodeEncode(w, t);
  }

  // ----- canonicalisation -----

  /** The shortest header is no longer than whichever header was read. */
  lemma HeaderIsShortest(major: nat, info: nat, s: seq<byte>)
    requires major < 8 && info < 32 && ReadLength(info, s).Ok?
    ensures var r := ReadLength(info, s); r.value < TWO_TO_64 && |Header(major, r.value)| <= 1 + |s| - |r.rest|
  {
    Pow256Values();
    if info >= 24 {
      var width := ArgumentWidth(info);
      assert |s[..width]| == width;
      assert FromBytes(s[..width]) < Pow256(width);
    }
  }

  lemma HeaderMonotone(major: nat, m: nat, n: nat)
    requires major < 8 && m <= n < TWO_TO_64
    ensures |Header(major, m)| <= |Header(major, n)|
  {
  }

  /** Whatever is decoded can be encoded again, in no more bytes than were read. */
  lemma {:induction false} Shortest(s: seq<byte>)
    requires Decode(s).Ok?
    ensures Encodable(Decode(s).value)
    ensures |Encode(Decode(s).value)| <= |s| - |Decode(s).rest|
    decreases |s|, 0
  {
    var major, info := s[0] / 32, s[0] % 32;
    if major < 7 {
      HeaderIsShortest(major, info, s[1..]);
      var Ok(n, rest) := ReadLength(info, s[1..]);
      ShortestContent(major, n, rest);
    }
  }

  lemma {:induction false} ShortestContent(major: nat, n: nat, s: seq<byte>)
    requires major < 7 && n < TWO_TO_64 && Content(major, n, s).Ok?
    ensures var Ok(v, rest) := Content(major, n, s);
            Encodable(v) && |Encode(v)| <= |Header(major, n)| + |s| - |rest|
    decreases |s|, 3
  {
    if major == 3 {
      Utf8.EncodeDecode(s[..n]);
    } else if major == 4 {
      ShortestItems(n, s, []);
    } else if major == 5 {
      ShortestEntries(n, s, []);
      HeaderMonotone(5, |DecodeEntries(n, s, []).value|, n);
    } else if major == 6 {
      Shortest(s);
    }
  }

  lemma {:induction false} ShortestItems(n: nat, s: seq<byte>, acc: seq<Value>)
    requires DecodeItems(n, s, acc).Ok?
    requires forall x | x in acc :: Encodable(x)
    ensures var Ok(vs, rest) := DecodeItems(n, s, acc);
            && |vs| == |acc| + n
            && (forall x | x in vs :: Encodable(x))
            && |EncodeItems(vs)| <= |EncodeItems(acc)| + |s| - |rest|
    decreases |s|, 1
  {
    if n > 0 {
      var Ok(v, rest) := Decode(s);
      Shortest(s);
      EncodeItemsAppend(acc, v);
      ShortestItems(n - 1, rest, acc + [v]);
    }
  }

  lemma {:induction false} ShortestEntries(n: nat, s: seq<byte>, acc: seq<Entry>)
    requires DecodeEntries(n, s, acc).Ok?
    requires DistinctKeys(acc) && forall e | e in acc :: EncodableEntry(e)
    ensures var Ok(es, rest) := DecodeEntries(n, s, acc);
            && |es| <= |acc| + n
            && DistinctKeys(es)
            && (forall e | e in es :: EncodableEntry(e))
            && |EncodeEntries(es)| <= |EncodeEntries(acc)| + |s| - |rest|
    decreases |s|, 2
  {
    if n > 0 {
      var Ok(e, rest) := DecodePair(s);
      ShortestPair(s);
      SetItemKeys(acc, e.key, e.val);
      SetItemEncodable(acc, e.key, e.val);
      SetItemLength(acc, e.key, e.val);
      ShortestEntries(n - 1, rest, SetItem(acc, e.key, e.val));
    }
  }

  lemma {:induction false} ShortestPair(s: seq<byte>)
    requires DecodePair(s).Ok?
    ensures var Ok(e, rest) := DecodePair(s); EncodableEntry(e) && |EncodeEntry(e)| <= |s| - |rest|
    decreases |s|, 1
  {
    Shortest(s);
    Shortest(Decode(s).rest);
  }

  lemma {:induction false} SetItemLength(es: seq<Entry>, k: Value, v: Value)
    requires forall e | e in es :: EncodableEntry(e)
    requires EncodableEntry(Entry(k, v))
    requires forall e | e in SetItem(es, k, v) :: EncodableEntry(e)
    ensures |EncodeEntries(SetItem(es, k, v))| <= |EncodeEntries(es)| + |EncodeEntry(Entry(k, v))|
  {
    if es == [] {
    } else if SameKey(es[0].key, k) {
      assert SetItem(es, k, v)[1..] == es[1..];
      assert EncodableEntry(es[0]);
    } else {
      var r := SetItem(es, k, v);
      assert r[1..] == SetItem(es[1..], k, v) && r[0] == es[0];
      SetItemLength(es[1..], k, v);
    }
  }

  /** Preferred serialisation, section 4.1 of RFC 8949: re-encoding an accepted document keeps its value,
      never lengthens it, and is a fixed point. */
  lemma Canonicalisation(s: seq<byte>)
    requires DecodeAll(s).Success?
    ensures Encodable(DecodeAll(s).value)
    ensures var c := Encode(DecodeAll(s).value);
            && |c| <= |s|
            && DecodeAll(c) == DecodeAll(s)
            && Encode(DecodeAll(c).value) == c
  {
    Shortest(s);
    RoundTrip(DecodeAll(s).value);
  }

  /** The result never has more nodes than bytes were read, whatever lengths the input claims. */
  lemma SizeBound(s: seq<byte>)
    requires Decode(s).Ok?
    ensures Nodes(Decode(s).value) <= |s| - |Decode(s).rest|
  {
    Shortest(s);
    NodesBound(Decode(s).value);
  }

  // ----- locality and truncation -----

  /** `r` on the first `k` bytes of its input, given what `full` says on all `n` of them: the same value
      when the bytes it consumed are all there, and `AttestationError` when one is missing. */
  ghost predicate CutAgrees<T(!new)>(full: Outcome<T>, n: nat, k: nat, r: Outcome<T>)
    requires full.Ok? && |full.rest| <= n && k <= n
  {
    var used := n - |full.rest|;
    if k >= used then r == Ok(full.value, full.rest[..k - used]) else r == Fail(AttestationError)
  }

  lemma CutRead(n: nat, s: seq<byte>, k: nat)
    requires Read(n, s).Ok? && k <= |s|
    ensures CutAgrees(Read(n, s), |s|, k, Read(n, s[..k]))
  {
    if k >= n {
      assert s[..k][..n] == s[..n] && s[..k][n..] == s[n..][..k - n];
    }
  }

  lemma CutLength(info: nat, s: seq<byte>, k: nat)
    requires ReadLength(info, s).Ok? && k <= |s|
    ensures CutAgrees(ReadLength(info, s), |s|, k, ReadLength(info, s[..k]))
  {
    if info >= 24 {
      CutRead(ArgumentWidth(info), s, k);
    }
  }

  /** Cutting an input that decodes: anywhere behind the value changes nothing, and every strict prefix
      of the value's bytes is rejected with `AttestationError`. */
  lemma {:induction false} Cut(s: seq<byte>, k: nat)
    requires Decode(s).Ok? && k <= |s|
    ensures CutAgrees(Decode(s), |s|, k, Decode(s[..k]))
    decreases |s|, 0
  {
    if k > 0 {
      var major, info := s[0] / 32, s[0] % 32;
      assert s[..k][1..] == s[1..][..k - 1];
      if major < 7 {
        CutHead(major, info, s[1..], k - 1);
      }
    }
  }

  /** The same behind the initial byte. */
  lemma {:induction false} CutHead(major: nat, info: nat, s: seq<byte>, k: nat)
    requires major < 7 && ReadLength(info, s).Ok? && k <= |s|
    requires Content(major, ReadLength(info, s).value, ReadLength(info, s).rest).Ok?
    ensures var whole, cut := ReadLength(info, s), ReadLength(info, s[..k]);
            CutAgrees(Content(major, whole.value, whole.rest), |s|, k,
                      if cut.Fail? then Fail(cut.error) else Content(major, cut.value, cut.rest))
    decreases |s|, 4
  {
    CutLength(info, s, k);
    var Ok(n, rest) := ReadLength(info, s);
    if k >= |s| - |rest| {
      CutContent(major, n, rest, k - (|s| - |rest|));
    }
  }

  lemma {:induction false} CutContent(major: nat, n: nat, s: seq<byte>, k: nat)
    requires major < 7 && Content(major, n, s).Ok? && k <= |s|
    ensures CutAgrees(Content(major, n, s), |s|, k, Content(major, n, s[..k]))
    decreases |s|, 3
  {
    if major == 2 || major == 3 {
      CutRead(n, s, k);
    } else if major == 4 {
      CutItems(n, s, [], k);
    } else if major == 5 {
      CutEntries(n, s, [], k);
    } else if major == 6 {
      Cut(s, k);
    }
  }

  lemma {:induction false} CutItems(n: nat, s: seq<byte>, acc: seq<Value>, k: nat)
    requires DecodeItems(n, s, acc).Ok? && k <= |s|
    ensures CutAgrees(DecodeItems(n, s, acc), |s|, k, DecodeItems(n, s[..k], acc))
    decreases |s|, 1
  {
    if n > 0 {
      Cut(s, k);
      var Ok(v, rest) := Decode(s);
      if k >= |s| - |rest| {
        CutItems(n - 1, rest, acc + [v], k - (|s| - |rest|));
      }
    }
  }

  lemma {:induction false} CutEntries(n: nat, s: seq<byte>, acc: seq<Entry>, k: nat)
    requires DecodeEntries(n, s, acc).Ok? && k <= |s|
    ensures CutAgrees(DecodeEntries(n, s, acc), |s|, k, DecodeEntries(n, s[..k], acc))
    decreases |s|, 2
  {
    if n > 0 {
      CutPair(s, k);
      var Ok(e, rest) := DecodePair(s);
      if k >= |s| - |rest| {
        CutEntries(n - 1, rest, SetItem(acc, e.key, e.val), k - (|s| - |rest|));
      }
    }
  }

  lemma {:induction false} CutPair(s: seq<byte>, k: nat)
    requires DecodePair(s).Ok? && k <= |s|
    ensures CutAgrees(DecodePair(s), |s|, k, DecodePair(s[..k]))
    decreases |s|, 1
  {
    Cut(s, k);
    var afterKey := Decode(s).rest;
    if k >= |s| - |afterKey| {
      Cut(afterKey, k - (|s| - |afterKey|));
    }
  }

  /** Bytes appended to an input that decodes are left unread. */
  lemma {:induction false} Extend(s: seq<byte>, t: seq<byte>)
    requires Decode(s).Ok?
    ensures Decode(s + t) == Ok(Decode(s).value, Decode(s).rest + t)
    decreases |s|, 0
  {
    var major, info := s[0] / 32, s[0] % 32;
    assert (s + t)[1..] == s[1..] + t;
    if major < 7 {
      ExtendLength(info, s[1..], t);
      var Ok(n, rest) := ReadLength(info, s[1..]);
      ExtendContent(major, n, rest, t);
    }
  }

  lemma {:induction false} ExtendContent(major: nat, n: nat, s: seq<byte>, t: seq<byte>)
    requires major < 7 && Content(major, n, s).Ok?
    ensures Content(major, n, s + t) == Ok(Content(major, n, s).value, Content(major, n, s).rest + t)
    decreases |s|, 3
  {
    if major == 2 || major == 3 {
      ExtendRead(n, s, t);
    } else if major == 4 {
      ExtendItems(n, s, t, []);
    } else if major == 5 {
      ExtendEntries(n, s, t, []);
    } else if major == 6 {
      Extend(s, t);
    }
  }

  lemma ExtendRead(n: nat, s: seq<byte>, t: seq<byte>)
    requires Read(n, s).Ok?
    ensures Read(n, s + t) == Ok(Read(n, s).value, Read(n, s).rest + t)
  {
    assert (s + t)[..n] == s[..n] && (s + t)[n..] == s[n..] + t;
  }

  lemma ExtendLength(info: nat, s: seq<byte>, t: seq<byte>)
    requires ReadLength(info, s).Ok?
    ensures ReadLength(info, s + t) == Ok(ReadLength(info, s).value, ReadLength(info, s).rest + t)
  {
    if info >= 24 {
      ExtendRead(ArgumentWidth(info), s, t);
    }
  }

  lemma {:induction false} ExtendItems(n: nat, s: seq<byte>, t: seq<byte>, acc: seq<Value>)
    requires DecodeItems(n, s, acc).Ok?
    ensures DecodeItems(n, s + t, acc) == Ok(DecodeItems(n, s, acc).value, DecodeItems(n, s, acc).rest + t)
    decreases |s|, 1
  {
    if n > 0 {
      Extend(s, t);
      ExtendItems(n - 1, Decode(s).rest, t, acc + [Decode(s).value]);
    }
  }

  lemma {:induction false} ExtendEntries(n: nat, s: seq<byte>, t: seq<byte>, acc: seq<Entry>)
    requires DecodeEntries(n, s, acc).Ok?
    ensures DecodeEntries(n, s + t, acc) == Ok(DecodeEntries(n, s, acc).value, DecodeEntries(n, s, acc).rest + t)
    decreases |s|, 2
  {
    if n > 0 {
      var Ok(e, rest) := DecodePair(s);
      Extend(s, t);
      Extend(Decode(s).rest, t);
      ExtendEntries(n - 1, rest, t, SetItem(acc, e.key, e.val));
    }
  }

  /** The decoder's answer depends only on the bytes it consumed: two inputs that share them decode alike. */
  lemma {:induction false} Locality(s: seq<byte>, s': seq<byte>)
    requires Decode(s).Ok?
    requires var n := |s| - |Decode(s).rest|; n <= |s'| && s'[..n] == s[..n]
    ensures Decode(s').Ok? && Decode(s').value == Decode(s).value
    ensures |s'| - |Decode(s').rest| == |s| - |Decode(s).rest|
    ensures Decode(s').rest == s'[|s| - |Decode(s).rest|..]
  {
    var n := |s| - |Decode(s).rest|;
    Cut(s, n);
    Extend(s[..n], s'[n..]);
    assert s' == s'[..n] + s'[n..];
    assert Decode(s[..n]).rest + s'[n..] == s'[n..];
  }

  /** A complete document with its end cut off is rejected, at every length. */
  lemma Truncation(s: seq<byte>, k: nat)
    requires DecodeAll(s).Success? && k < |s|
    ensures DecodeAll(s[..k]) == Failure(AttestationError)
  {
    Cut(s, k);
  }

  /** Scalars of RFC 8949, Appendix A. */
  lemma Rfc8949Scalars()
    ensures Encode(Int(23)) == [0x17] && Encode(Int(24)) == [0x18, 0x18] && Encode(Int(-1000)) == [0x39, 0x03, 0xE7]
    ensures Encode(Int(1000)) == [0x19, 0x03, 0xE8]
  {
    assert ToBytes(3, 1) == [3];
  }

  lemma Rfc8949Simple()
    ensures Encode(Bytes([1, 2, 3, 4])) == [0x44, 0x01, 0x02, 0x03, 0x04]
    ensures Encode(Bool(false)) == [0xF4] && Encode(Bool(true)) == [0xF5] && Encode(Null) == [0xF6]
  {
  }

  lemma Rfc8949Text()
    ensures Encodable(Text("a")) && Encode(Text("a")) == [0x61, 0x61]
  {
    assert "a"[1..] == "" && Utf8.Encode("a") == Utf8.EncodeChar('a') + Utf8.Encode("");
  }

  /** Containers of RFC 8949, Appendix A. */
  lemma Rfc8949Containers()
    ensures Encodable(List([Int(1), Int(2)])) && Encode(List([Int(1), Int(2)])) == [0x82, 0x01, 0x02]
    ensures Encodable(Map([Entry(Int(1), Int(2))])) && Encode(Map([Entry(Int(1), Int(2))])) == [0xA1, 0x01, 0x02]
  {
    var xs := [Int(1), Int(2)];
    assert xs[1..] == [Int(2)] && xs[1..][1..] == [];
    assert EncodeItems([]) == [] && EncodeItems(xs[1..]) == [0x02];
    var es := [Entry(Int(1), Int(2))];
    assert es[1..] == [];
    assert EncodeEntry(es[0]) == [0x01, 0x02];
  }
}
