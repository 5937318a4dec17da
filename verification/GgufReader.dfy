/** The header reader: what it returns for any byte string, as functions of the bytes that
    are still to be read, and the reader itself, which moves one cursor.
 */
module GgufReader {
  import opened GgufFormat

  /** A read either fails or yields a text and the number of bytes it used. */
  datatype Parsed = Fail | Got(text: Text, used: nat)

  datatype Skipped = Broken | Past(used: nat)

  datatype Header = Header(version: nat, tensorCount: nat, kvCount: nat, metadata: map<Text, Text>)

  datatype Error =
    | ShortMagic
    | NotGguf
    | ShortVersion
    | UnsupportedVersion(version: nat)
    | ShortTensorCount
    | ShortPairCount

  datatype Result<+T> = Ok(value: T) | Err(error: Error)

  function ReadStr(s: seq<Byte>): (r: Parsed)
    ensures r.Got? ==> 8 <= r.used <= |s|
  {
    if |s| < 8 then Fail
    else
      var length := FromLe(s[..8]);
      if length > MAX_STRING || |s| < 8 + length then Fail
      else Got(s[8..8 + length], 8 + length)
  }

  /** What is shown for a fixed-size value whose bytes spell n. */
  function ScalarText(f: Floats, ty: int, n: nat): Text {
    Shown(f, OfRaw(ty, n))
  }

  function ReadByType(f: Floats, ty: int, s: seq<Byte>): (r: Parsed)
    ensures r.Got? ==> 1 <= r.used <= |s|
    decreases |s|, 0
  {
    if Width(ty) > 0 then
      if |s| < Width(ty) then Fail
      else Got(ScalarText(f, ty, FromLe(s[..Width(ty)])), Width(ty))
    else if ty == STRING then ReadStr(s)
    else if ty == ARRAY then
      if |s| < 12 then Fail
      else
        match SkipAll(f, FromLe(s[..4]), FromLe(s[4..12]), s[12..])
        case Broken => Fail
        case Past(n) => Got([], 12 + n)
    else Fail
  }

  function SkipAll(f: Floats, ty: int, count: nat, s: seq<Byte>): (r: Skipped)
    ensures r.Past? ==> r.used <= |s|
    decreases |s|, 1, count
  {
    if count == 0 then Past(0)
    else
      match ReadByType(f, ty, s)
      case Fail => Broken
      case Got(_, n) =>
        match SkipAll(f, ty, count - 1, s[n..])
        case Broken => Broken
        case Past(m) => Past(n + m)
  }

  function ReadValue(f: Floats, s: seq<Byte>): (r: Parsed)
    ensures r.Got? ==> 4 <= r.used <= |s|
  {
    if |s| < 4 then Fail
    else
      match ReadByType(f, FromLe(s[..4]), s[4..])
      case Fail => Fail
      case Got(text, n) => Got(text, 4 + n)
  }

  /** Read up to `count` pairs into `meta`, stopping at the first that cannot be read. */
  function Collect(f: Floats, count: nat, s: seq<Byte>, meta: map<Text, Text>): map<Text, Text>
  {
    if count == 0 then meta
    else
      match ReadStr(s)
      case Fail => meta
      case Got(key, n) =>
        match ReadValue(f, s[n..])
        case Fail => meta
        case Got(text, m) => Collect(f, count - 1, s[n + m..], Store(meta, key, text))
  }

  /** Empty texts are not stored. */
  function Store(meta: map<Text, Text>, key: Text, text: Text): map<Text, Text> {
    if text != [] then meta[key := text] else meta
  }

  function ReadFile(f: Floats, s: seq<Byte>): Result<Header> {
    if |s| < 4 then Err(ShortMagic)
    else if s[..4] != MAGIC then Err(NotGguf)
    else if |s| < 8 then Err(ShortVersion)
    else
      var version := FromLe(s[4..8]);
      if version < 2 || version > 3 then Err(UnsupportedVersion(version))
      else if |s| < 16 then Err(ShortTensorCount)
      else if |s| < 24 then Err(ShortPairCount)
      else
        var count := FromLe(s[16..24]);
        Ok(Header(version, FromLe(s[8..16]), count, Collect(f, count, s[24..], map[])))
  }

  /** The outcome of skipping when `done` bytes have been skipped already. */
  function Resume(done: nat, r: Skipped): Skipped {
    match r
    case Broken => Broken
    case Past(n) => Past(done + n)
  }

  lemma SkipNone(f: Floats, ty: int, s: seq<Byte>)
    ensures SkipAll(f, ty, 0, s) == Past(0)
  {
  }

  lemma SkipOne(f: Floats, ty: int, count: nat, s: seq<Byte>)
    requires count > 0
    ensures ReadByType(f, ty, s).Fail? ==> SkipAll(f, ty, count, s).Broken?
    ensures ReadByType(f, ty, s).Got? ==>
              var n := ReadByType(f, ty, s).used;
              n <= |s| && SkipAll(f, ty, count, s) == Resume(n, SkipAll(f, ty, count - 1, s[n..]))
  {
  }

  lemma CollectNone(f: Floats, s: seq<Byte>, meta: map<Text, Text>)
    ensures Collect(f, 0, s, meta) == meta
  {
  }

  lemma CollectOne(f: Floats, count: nat, s: seq<Byte>, meta: map<Text, Text>)
    requires count > 0
    ensures ReadStr(s).Fail? ==> Collect(f, count, s, meta) == meta
    ensures ReadStr(s).Got? ==>
              var n := ReadStr(s).used;
              && n <= |s|
              && (ReadValue(f, s[n..]).Fail? ==> Collect(f, count, s, meta) == meta)
              && (ReadValue(f, s[n..]).Got? ==>
                    var m := ReadValue(f, s[n..]).used;
                    && m <= |s[n..]|
                    && Collect(f, count, s, meta)
                       == Collect(f, count - 1, s[n..][m..], Store(meta, ReadStr(s).text, ReadValue(f, s[n..]).text)))
  {
    hide ReadStr, ReadValue, Store;
    if ReadStr(s).Got? {
      var n := ReadStr(s).used;
      if ReadValue(f, s[n..]).Got? {
        assert s[n..][ReadValue(f, s[n..]).used..] == s[n + ReadValue(f, s[n..]).used..];
      }
    }
  }

  lemma ReadArray(f: Floats, s: seq<Byte>)
    requires 12 <= |s|
    ensures
      var r := SkipAll(f, FromLe(s[..4]), FromLe(s[4..12]), s[12..]);
      && (r.Broken? ==> ReadByType(f, ARRAY, s) == Fail)
      && (r.Past? ==> ReadByType(f, ARRAY, s) == Got([], 12 + r.used))
  {
    hide SkipAll, FromLe;
  }

  // ----- The reader -----

  /** A reading method does what the function of the remaining bytes says: the cursor moves
      over exactly the bytes used. */
  ghost predicate Moved(before: seq<Byte>, after: seq<Byte>, r: Parsed, ok: bool, text: Text) {
    && |after| <= |before|
    && ok == r.Got?
    && (ok ==> r.text == text && r.used <= |before| && after == before[r.used..])
  }

  ghost predicate Skipping(before: seq<Byte>, after: seq<Byte>, r: Skipped, ok: bool) {
    && |after| <= |before|
    && ok == r.Past?
    && (ok ==> r.used <= |before| && after == before[r.used..])
  }

  class Cursor {
    const data: seq<Byte>
    var pos: nat

    ghost predicate Valid()
      reads this
    {
      pos <= |data|
    }

    ghost function Rest(): seq<Byte>
      requires Valid()
      reads this
    {
      data[pos..]
    }

    constructor (data: seq<Byte>)
      ensures Valid() && this.data == data && Rest() == data
    {
      this.data := data;
      pos := 0;
    }

    /** Reads exactly n bytes, or uses up what is left and fails. */
    method ReadFull(n: nat) returns (ok: bool, bytes: seq<Byte>)
      requires Valid()
      modifies this
      ensures Valid()
      ensures ok <==> n <= old(|Rest()|)
      ensures ok ==> bytes == old(Rest())[..n] && Rest() == old(Rest())[n..]
      ensures !ok ==> Rest() == []
    {
      if |data| - pos < n {
        pos := |data|;
        return false, [];
      }
      bytes := data[pos..pos + n];
      pos := pos + n;
      ok := true;
    }

    method ReadUint(width: nat) returns (ok: bool, n: nat)
      requires Valid()
      modifies this
      ensures Valid()
      ensures ok <==> width <= old(|Rest()|)
      ensures ok ==> n == FromLe(old(Rest())[..width]) && Rest() == old(Rest())[width..]
      ensures !ok ==> Rest() == []
    {
      var bytes;
      ok, bytes := ReadFull(width);
      n := FromLe(bytes);
    }

    method GgufReadString() returns (ok: bool, text: Text)
      requires Valid()
      modifies this
      ensures Valid() && Moved(old(Rest()), Rest(), ReadStr(old(Rest())), ok, text)
    {
      var length;
      text := [];
      ok, length := ReadUint(8);
      if !ok {
        return;
      }
      if length > MAX_STRING {
        ok := false;
        return;
      }
      ok, text := ReadFull(length);
    }

    method GgufReadValue(f: Floats) returns (ok: bool, text: Text)
      requires Valid()
      modifies this
      ensures Valid() && Moved(old(Rest()), Rest(), ReadValue(f, old(Rest())), ok, text)
    {
      var ty;
      text := [];
      ok, ty := ReadUint(4);
      if ok {
        ok, text := GgufReadValueByType(f, ty);
      }
    }

    method GgufReadValueByType(f: Floats, ty: nat) returns (ok: bool, text: Text)
      requires Valid()
      modifies this
      ensures Valid() && Moved(old(Rest()), Rest(), ReadByType(f, ty, old(Rest())), ok, text)
      decreases |data| - pos, 1
    {
      var n;
      text := [];
      if ty == UINT8 {
        text := Decimal(0);
        ok, n := ReadUint(1);
      } else if ty == INT8 {
        text := Decimal(0);
        ok, n := ReadUint(1);
      } else if ty == UINT16 {
        ok, n := ReadUint(2);
        text := Decimal(n);
      } else if ty == INT16 {
        ok, n := ReadUint(2);
        text := Decimal(Signed(n, 2));
      } else if ty == UINT32 {
        ok, n := ReadUint(4);
        text := Decimal(n);
      } else if ty == INT32 {
        ok, n := ReadUint(4);
        text := Decimal(Signed(n, 4));
      } else if ty == FLOAT32 {
        ok, n := ReadUint(4);
        text := f.show32(n);
      } else if ty == BOOL {
        ok, n := ReadUint(1);
        text := if n != 0 then TRUE else FALSE;
      } else if ty == STRING {
        ok, text := GgufReadString();
      } else if ty == ARRAY {
        ok := GgufSkipArray(f);
      } else if ty == UINT64 {
        ok, n := ReadUint(8);
        text := Decimal(n);
      } else if ty == INT64 {
        ok, n := ReadUint(8);
        text := Decimal(Signed(n, 8));
      } else if ty == FLOAT64 {
        ok, n := ReadUint(8);
        text := f.show64(n);
      } else {
        ok := false;
      }
    }

    method GgufSkipArray(f: Floats) returns (ok: bool)
      requires Valid()
      modifies this
      ensures Valid() && Moved(old(Rest()), Rest(), ReadByType(f, ARRAY, old(Rest())), ok, [])
      decreases |data| - pos, 0
    {
      ghost var before := Rest();
      var elemType, count;
      ok, elemType := ReadUint(4);
      if !ok {
        return;
      }
      ok, count := ReadUint(8);
      if !ok {
        return;
      }
      assert before[4..][..8] == before[4..12] && before[4..][8..] == before[12..];
      ok := SkipElements(f, elemType, count);
    }

    method SkipElements(f: Floats, elemType: nat, count: nat) returns (ok: bool)
      requires Valid()
      modifies this
      ensures Valid() && Skipping(old(Rest()), Rest(), SkipAll(f, elemType, count, old(Rest())), ok)
      decreases |data| - pos, 2
    {
      hide SkipAll, ReadByType;
      ghost var body := Rest();
      SkipNone(f, elemType, []);
      var i := 0;
      while i < count
        invariant Valid() && i <= count && |Rest()| <= |body| && Rest() == body[|body| - |Rest()|..]
        invariant SkipAll(f, elemType, count, body)
               == Resume(|body| - |Rest()|, SkipAll(f, elemType, count - i, Rest()))
      {
        SkipOne(f, elemType, count - i, Rest());
        var text;
        ok, text := GgufReadValueByType(f, elemType);
        if !ok {
          return;
        }
        assert Rest() == body[|body| - |Rest()|..];
        i := i + 1;
      }
      SkipNone(f, elemType, Rest());
      ok := true;
    }
  }

  lemma SliceAgain(s: seq<Byte>, at: nat, n: nat)
    ensures at + n <= |s| ==> s[at..][..n] == s[at..at + n] && s[at..][n..] == s[at + n..]
  {
  }

  method ReadGGUFHeader(f: Floats, data: seq<Byte>) returns (r: Result<Header>)
    ensures r == ReadFile(f, data)
  {
    hide Collect, FromLe;
    SliceAgain(data, 4, 4);
    SliceAgain(data, 8, 8);
    SliceAgain(data, 16, 8);
    var file := new Cursor(data);
    var ok, magic := file.ReadFull(4);
    if !ok {
      return Err(ShortMagic);
    }
    if magic != MAGIC {
      return Err(NotGguf);
    }
    var version;
    ok, version := file.ReadUint(4);
    if !ok {
      return Err(ShortVersion);
    }
    if version < 2 || version > 3 {
      return Err(UnsupportedVersion(version));
    }
    var nTensors, nKV;
    ok, nTensors := file.ReadUint(8);
    if !ok {
      return Err(ShortTensorCount);
    }
    ok, nKV := file.ReadUint(8);
    if !ok {
      return Err(ShortPairCount);
    }
    var meta := ReadPairs(f, file, nKV);
    r := Ok(Header(version, nTensors, nKV, meta));
  }

  method ReadPairs(f: Floats, file: Cursor, nKV: nat) returns (meta: map<Text, Text>)
    requires file.Valid()
    modifies file
    ensures meta == Collect(f, nKV, old(file.Rest()), map[])
  {
    hide Collect, ReadStr, ReadValue;
    meta := map[];
    var i := 0;
    while i < nKV
      invariant file.Valid() && i <= nKV
      invariant Collect(f, nKV, old(file.Rest()), map[]) == Collect(f, nKV - i, file.Rest(), meta)
    {
      CollectOne(f, nKV - i, file.Rest(), meta);
      var ok, key := file.GgufReadString();
      if !ok {
        return;
      }
      var val;
      ok, val := file.GgufReadValue(f);
      if !ok {
        return;
      }
      if val != [] {
        meta := meta[key := val];
      }
      i := i + 1;
    }
    CollectNone(f, file.Rest(), meta);
  }
}
