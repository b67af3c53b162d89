/** The decoder: what it computes, as functions on the bytes that are still unread, and the class
    that walks an offset through a buffer. */
module CborDecoder {
  import opened Bytes
  import opened Results
  import opened CborValue
  import Utf8

  /** The exceptions that leave the decoder. The two Python built-ins are not `AttestationError`:
      a bad text string and an unhashable map key. */
  datatype Error = AttestationError | UnicodeDecodeError | UnhashableKey

  /** A decoded value with the bytes after it, or the exception. */
  datatype Outcome<+T> = Ok(value: T, rest: seq<byte>) | Fail(error: Error)

  /** `_read`. */
  function Read(n: nat, s: seq<byte>): (r: Outcome<seq<byte>>) {
    if n > |s| then Fail(AttestationError) else Ok(s[..n], s[n..])
  }

  /** How many argument bytes follow an initial byte with this additional information. */
  function ArgumentWidth(info: nat): nat {
    if info < 24 then 0 else if info == 24 then 1 else if info == 25 then 2 else if info == 26 then 4 else 8
  }

  /** `_read_length`. */
  function ReadLength(info: nat, s: seq<byte>): (r: Outcome<nat>)
    ensures r.Ok? ==> |r.rest| <= |s|
  {
    if info < 24 then Ok(info, s)
    else if info > 27 then Fail(AttestationError)
    else
      match Read(ArgumentWidth(info), s)
      case Fail(e) => Fail(e)
      case Ok(bs, rest) => Ok(FromBytes(bs), rest)
  }

  /** Major type 7: the three simple values. */
  function Simple(info: nat, s: seq<byte>): (r: Outcome<Value>)
    ensures r.Ok? ==> r.rest == s
  {
    if info == 20 then Ok(Bool(false), s)
    else if info == 21 then Ok(Bool(true), s)
    else if info == 22 then Ok(Null, s)
    else Fail(AttestationError)
  }

  /** `_CBORDecoder.decode`: the initial byte and its argument, then the content. */
  function Decode(s: seq<byte>): (r: Outcome<Value>)
    ensures r.Ok? ==> |r.rest| < |s|
    decreases |s|, 0
  {
    if s == [] then Fail(AttestationError)
    else
      var major, info := s[0] / 32, s[0] % 32;
      if major == 7 then Simple(info, s[1..])
      else
        match ReadLength(info, s[1..])
        case Fail(e) => Fail(e)
        case Ok(n, rest) => Content(major, n, rest)
  }

  /** What follows a header with this major type and argument. */
  function Content(major: nat, n: nat, s: seq<byte>): (r: Outcome<Value>)
    requires major < 7
    ensures r.Ok? ==> |r.rest| <= |s|
    decreases |s|, 3
  {
    if major == 0 then Ok(Int(n), s)
    else if major == 1 then Ok(Int(-1 - n), s)
    else if major == 2 then
      match Read(n, s)
      case Fail(e) => Fail(e)
      case Ok(bs, rest) => Ok(Bytes(bs), rest)
    else if major == 3 then
      match Read(n, s)
      case Fail(e) => Fail(e)
      case Ok(bs, rest) =>
        match Utf8.Decode(bs)
        case None => Fail(UnicodeDecodeError)
        case Some(text) => Ok(Text(text), rest)
    else if major == 4 then
      match DecodeItems(n, s, [])
      case Fail(e) => Fail(e)
      case Ok(vs, rest) => Ok(List(vs), rest)
    else if major == 5 then
      match DecodeEntries(n, s, [])
      case Fail(e) => Fail(e)
      case Ok(es, rest) => Ok(Map(es), rest)
    else Decode(s)
  }

  /** The list comprehension: `n` more values behind those already in `acc`. */
  function DecodeItems(n: nat, s: seq<byte>, acc: seq<Value>): (r: Outcome<seq<Value>>)
    ensures r.Ok? ==> |r.rest| <= |s|
    decreases |s|, 1
  {
    if n == 0 then Ok(acc, s)
    else
      match Decode(s)
      case Fail(e) => Fail(e)
      case Ok(v, rest) => DecodeItems(n - 1, rest, acc + [v])
  }

  /** One turn of the dictionary loop: the value is decoded before the key is hashed. */
  function DecodePair(s: seq<byte>): (r: Outcome<Entry>)
    ensures r.Ok? ==> |r.rest| < |s|
    decreases |s|, 1
  {
    match Decode(s)
    case Fail(e) => Fail(e)
    case Ok(k, afterKey) =>
      match Decode(afterKey)
      case Fail(e) => Fail(e)
      case Ok(v, rest) => if Hashable(k) then Ok(Entry(k, v), rest) else Fail(UnhashableKey)
  }

  /** The loop that fills the dictionary: `n` more pairs on top of `acc`. */
  function DecodeEntries(n: nat, s: seq<byte>, acc: seq<Entry>): (r: Outcome<seq<Entry>>)
    ensures r.Ok? ==> |r.rest| <= |s|
    decreases |s|, 2
  {
    if n == 0 then Ok(acc, s)
    else
      match DecodePair(s)
      case Fail(e) => Fail(e)
      case Ok(e, rest) => DecodeEntries(n - 1, rest, SetItem(acc, e.key, e.val))
  }

  /** `_cbor_decode`: one value and nothing after it. */
  function DecodeAll(s: seq<byte>): (r: Result<Value, Error>) {
    match Decode(s)
    case Fail(e) => Failure(e)
    case Ok(v, rest) => if rest == [] then Success(v) else Failure(AttestationError)
  }

  /** `_CBORDecoder`: every method computes what the function of the same name says about the unread
      bytes, and on success leaves the offset at the first byte after what it read. */
  class CborReader {
    const data: seq<byte>
    var offset: nat

    constructor (data: seq<byte>)
      ensures this.data == data && offset == 0
    {
      this.data := data;
      offset := 0;
    }

    ghost predicate Valid()
      reads this
    {
      offset <= |data|
    }

    ghost function Unread(): seq<byte>
      reads this
      requires Valid()
    {
      data[offset..]
    }

    /** `r` is the result `spec` predicts, and on success the offset is where `spec` left off. */
    ghost predicate Agrees<T(!new)>(r: Result<T, Error>, spec: Outcome<T>)
      reads this
      requires Valid()
    {
      match spec
      case Ok(v, rest) => r == Success(v) && Unread() == rest
      case Fail(e) => r == Failure(e)
    }

    method ReadBytes(length: nat) returns (r: Result<seq<byte>, Error>)
      requires Valid()
      modifies this`offset
      ensures Valid() && offset >= old(offset)
      ensures Agrees(r, Read(length, old(Unread())))
    {
      var end := offset + length;
      if end > |data| {
        return Failure(AttestationError);
      }
      r := Success(data[offset..end]);
      assert Unread()[..length] == data[offset..end] && Unread()[length..] == data[end..];
      offset := end;
    }

    method ReadArgument(info: nat) returns (r: Result<nat, Error>)
      requires Valid()
      modifies this`offset
      ensures Valid() && offset >= old(offset)
      ensures Agrees(r, ReadLength(info, old(Unread())))
    {
      if info < 24 {
        return Success(info);
      }
      if info > 27 {
        return Failure(AttestationError);
      }
      var bs := ReadBytes(ArgumentWidth(info));
      match bs
      case Failure(e) => r := Failure(e);
      case Success(bytes) => r := Success(FromBytes(bytes));
    }

    method DecodeValue() returns (r: Result<Value, Error>)
      requires Valid()
      modifies this`offset
      ensures Valid() && offset >= old(offset) && (r.Success? ==> offset > old(offset))
      ensures Agrees(r, Decode(old(Unread())))
      decreases |data| - offset, 0
    {
      if offset >= |data| {
        return Failure(AttestationError);
      }
      var initial := data[offset];
      offset := offset + 1;
      var major, info := initial / 32, initial % 32;
      if major == 7 {
        if info == 20 { return Success(Bool(false)); }
        if info == 21 { return Success(Bool(true)); }
        if info == 22 { return Success(Null); }
        return Failure(AttestationError);
      }
      var argument := ReadArgument(info);
      if argument.Failure? {
        return Failure(argument.error);
      }
      var n: int := argument.value;
      if major == 0 { return Success(Int(n)); }
      if major == 1 { return Success(Int(-1 - n)); }
      if major == 2 {
        var bs := ReadBytes(n);
        return if bs.Success? then Success(Bytes(bs.value)) else Failure(bs.error);
      }
      if major == 3 {
        var bs := ReadBytes(n);
        if bs.Failure? { return Failure(bs.error); }
        var text := Utf8.Decode(bs.value);
        return if text.Some? then Success(Text(text.value)) else Failure(UnicodeDecodeError);
      }
      if major == 4 {
        var items := DecodeList(n);
        return if items.Success? then Success(List(items.value)) else Failure(items.error);
      }
      if major == 5 {
        var entries := DecodeMap(n);
        return if entries.Success? then Success(Map(entries.value)) else Failure(entries.error);
      }
      r := DecodeValue();
    }

    method DecodeList(length: nat) returns (r: Result<seq<Value>, Error>)
      requires Valid()
      modifies this`offset
      ensures Valid() && offset >= old(offset)
      ensures Agrees(r, DecodeItems(length, old(Unread()), []))
      decreases |data| - offset, 1
    {
      var items := [];
      for i := 0 to length
        invariant Valid() && offset >= old(offset)
        invariant DecodeItems(length, old(Unread()), []) == DecodeItems(length - i, Unread(), items)
      {
        var v := DecodeValue();
        if v.Failure? { return Failure(v.error); }
        items := items + [v.value];
      }
      r := Success(items);
    }

    method DecodeMap(length: nat) returns (r: Result<seq<Entry>, Error>)
      requires Valid()
      modifies this`offset
      ensures Valid() && offset >= old(offset)
      ensures Agrees(r, DecodeEntries(length, old(Unread()), []))
      decreases |data| - offset, 1
    {
      var decoded := [];
      for i := 0 to length
        invariant Valid() && offset >= old(offset)
        invariant DecodeEntries(length, old(Unread()), []) == DecodeEntries(length - i, Unread(), decoded)
      {
        var k := DecodeValue();
        if k.Failure? { return Failure(k.error); }
        var v := DecodeValue();
        if v.Failure? { return Failure(v.error); }
        if !Hashable(k.value) { return Failure(UnhashableKey); }
        decoded := SetItem(decoded, k.value, v.value);
      }
      r := Success(decoded);
    }
  }

  method CborDecode(data: seq<byte>) returns (r: Result<Value, Error>)
    ensures r == DecodeAll(data)
  {
    var decoder := new CborReader(data);
    assert data[0..] == data;
    var value := decoder.DecodeValue();
    if value.Success? && decoder.offset != |data| {
      return Failure(AttestationError);
    }
    r := value;
  }
}
