/** The binary form of a cached rule set. */
module SavedBinary {
  import opened Common
  import opened Wire

  /** A time as seconds and nanoseconds; only the seconds are stored. */
  datatype Time = Time(sec: int64, nano: nat)

  datatype Saved = Saved(content: seq<byte>, lastUpdated: Time, lastEtag: seq<byte>, urlHash: seq<byte>)

  /** What Go's types allow: a length is a 64-bit integer. */
  predicate Representable(x: Saved) {
    && |x.content| < TWO63 && |x.lastEtag| < TWO63 && |x.urlHash| < TWO63
  }

  /** The part every version has. */
  function Body(x: Saved): seq<byte>
    requires Representable(x)
  {
    PutBytes(x.content) + PutInt64(x.lastUpdated.sec) + PutBytes(x.lastEtag)
  }

  /** The version-2 form. */
  function Image(x: Saved): seq<byte>
    requires Representable(x)
  {
    [2] + Body(x) + PutBytes(x.urlHash)
  }

  /** The form without the URL hash. */
  function OldImage(version: byte, x: Saved): seq<byte>
    requires Representable(x)
  {
    [version] + Body(x)
  }

  function WholeSeconds(t: Time): Time {
    Time(t.sec, 0)
  }

  // ---------- Reading ----------

  /** Where a read got to: the fields as they stand, the error if any, the bytes used up. */
  datatype Loaded = Loaded(saved: Saved, error: Option<ReadError>, used: nat)

  function LoadHash(x: Saved, data: seq<byte>, pos: nat): (l: Loaded)
    requires pos <= |data|
  {
    match ReadBytes(data, pos)
    case Err(e) => Loaded(x, Some(e), pos)
    case Ok(h) => Loaded(x.(urlHash := h.value), None, h.next)
  }

  function LoadEtag(x: Saved, data: seq<byte>, pos: nat, version: byte): (l: Loaded)
    requires pos <= |data|
  {
    match ReadBytes(data, pos)
    case Err(e) => Loaded(x, Some(e), pos)
    case Ok(t) =>
      var y := x.(lastEtag := t.value);
      if version < 2 then Loaded(y, None, t.next) else LoadHash(y, data, t.next)
  }

  function LoadTime(x: Saved, data: seq<byte>, pos: nat, version: byte): (l: Loaded)
    requires pos <= |data|
  {
    match ReadInt64(data, pos)
    case Err(e) => Loaded(x, Some(e), pos)
    case Ok(u) => LoadEtag(x.(lastUpdated := Time(u.value, 0)), data, u.next, version)
  }

  /** Reading `data` into fields that hold x. */
  function Load(x: Saved, data: seq<byte>): (l: Loaded) {
    if data == [] then Loaded(x, Some(Eof), 0)
    else match ReadBytes(data, 1)
         case Err(e) => Loaded(x, Some(e), 1)
         case Ok(c) => LoadTime(x.(content := c.value), data, c.next, data[0])
  }

  lemma LoadBody(was: Saved, x: Saved, version: byte, after: seq<byte>)
    requires Representable(x)
    ensures var data := [version] + Body(x) + after;
            var y := x.(lastUpdated := WholeSeconds(x.lastUpdated), urlHash := was.urlHash);
            Load(was, data) == if version < 2 then Loaded(y, None, 1 + |Body(x)|) else LoadHash(y, data, 1 + |Body(x)|)
  {
    hide ReadBytes, ReadInt64, PutBytes, PutInt64, LoadHash;
    var data := [version] + Body(x) + after;
    var c, t, e := PutBytes(x.content), PutInt64(x.lastUpdated.sec), PutBytes(x.lastEtag);
    assert data == [version] + c + (t + e + after);
    ReadPutBytes([version], x.content, t + e + after);
    assert data == ([version] + c) + t + (e + after);
    ReadPutInt64([version] + c, x.lastUpdated.sec, e + after);
    assert data == ([version] + c + t) + e + after;
    ReadPutBytes([version] + c + t, x.lastEtag, after);
  }

  /** Unmarshal undoes marshal, time to whole seconds, whatever the fields held and whatever follows. */
  lemma LoadImage(was: Saved, x: Saved, more: seq<byte>)
    requires Representable(x)
    ensures Load(was, Image(x) + more) == Loaded(x.(lastUpdated := WholeSeconds(x.lastUpdated)), None, |Image(x)|)
  {
    hide ReadBytes, PutBytes, Load, Body;
    var h := PutBytes(x.urlHash);
    assert Image(x) + more == [2] + Body(x) + (h + more);
    LoadBody(was, x, 2, h + more);
    assert Image(x) + more == ([2] + Body(x)) + h + more;
    ReadPutBytes([2] + Body(x), x.urlHash, more);
  }

  /** A version below 2 has no hash to read, and leaves the old one alone. */
  lemma LoadOldImage(was: Saved, x: Saved, version: byte, more: seq<byte>)
    requires Representable(x) && version < 2
    ensures Load(was, OldImage(version, x) + more) ==
            Loaded(x.(lastUpdated := WholeSeconds(x.lastUpdated), urlHash := was.urlHash), None, |OldImage(version, x)|)
  {
    LoadBody(was, x, version, more);
  }

  /** A read that succeeds uses no more than it was given, and more input behind it changes nothing. */
  lemma LoadStable(was: Saved, data: seq<byte>, more: seq<byte>)
    requires Load(was, data).error.None?
    ensures Load(was, data).used <= |data| && Load(was, data + more) == Load(was, data)
  {
    var data' := data + more;
    ReadBytesStable(data, more, 1);
    var c := ReadBytes(data, 1).value;
    ReadInt64Stable(data, more, c.next);
    var u := ReadInt64(data, c.next).value;
    ReadBytesStable(data, more, u.next);
    var t := ReadBytes(data, u.next).value;
    if data[0] >= 2 {
      ReadBytesStable(data, more, t.next);
    }
  }

  /** No proper prefix of a marshalled value is accepted. */
  lemma TruncationIsDetected(was: Saved, x: Saved, k: nat)
    requires Representable(x) && k < |Image(x)|
    ensures Load(was, Image(x)[..k]).error.Some?
  {
    var data := Image(x);
    assert data[..k] + data[k..] == data && data + [] == data;
    if Load(was, data[..k]).error.None? {
      LoadStable(was, data[..k], data[k..]);
      LoadImage(was, x, []);
      assert false;
    }
  }

  /**
    What an accepted input is: one byte, then the fields in order, each a stretch of the input, so
    no decoded field is longer than what was left of it.
   */
  lemma LoadedFieldsAreInput(was: Saved, data: seq<byte>) returns (c: nat, t: nat, e: nat)
    requires Load(was, data).error.None?
    ensures var l := Load(was, data);
            && |data| > 0 && 1 + |l.saved.content| < c && c + 8 == t && t + |l.saved.lastEtag| < e <= |data|
            && l.saved.content == data[c - |l.saved.content|..c]
            && l.saved.lastUpdated.nano == 0
            && PutInt64(l.saved.lastUpdated.sec) == data[c..t]
            && l.saved.lastEtag == data[e - |l.saved.lastEtag|..e]
            && (data[0] < 2 ==> l.saved.urlHash == was.urlHash && l.used == e)
            && (data[0] >= 2 ==> e + |l.saved.urlHash| < l.used <= |data|
                                 && l.saved.urlHash == data[l.used - |l.saved.urlHash|..l.used])
  {
    hide ReadBytes, ReadInt64, PutInt64;
    var content := ReadBytes(data, 1).value;
    c := content.next;
    var time := ReadInt64(data, c).value;
    t := time.next;
    e := ReadBytes(data, t).value.next;
    ReadInt64IsBytes(data, c);
  }

  // ---------- The object ----------

  class Binary {
    var content: seq<byte>
    var lastUpdated: Time
    var lastEtag: seq<byte>
    var urlHash: seq<byte>

    constructor (x: Saved)
      ensures Value() == x
    {
      content, lastUpdated, lastEtag, urlHash := x.content, x.lastUpdated, x.lastEtag, x.urlHash;
    }

    function Value(): Saved
      reads this
    {
      Saved(content, lastUpdated, lastEtag, urlHash)
    }

    method MarshalBinary() returns (data: seq<byte>)
      requires Representable(Value())
      ensures data == Image(Value())
    {
      data := [2];
      data := data + PutUvarint(|content|);
      data := data + content;
      data := data + PutInt64(lastUpdated.sec);
      data := data + PutUvarint(|lastEtag|);
      data := data + lastEtag;
      data := data + PutUvarint(|urlHash|);
      data := data + urlHash;
    }

    /** Fields are assigned as they are read, so an error leaves the earlier ones changed. */
    method UnmarshalBinary(data: seq<byte>) returns (err: Option<ReadError>)
      modifies this
      ensures Value() == Load(old(Value()), data).saved
      ensures err == Load(old(Value()), data).error
    {
      hide ReadUvarint, ReadInt64;
      if data == [] {
        return Some(Eof);
      }
      var version := data[0];
      var pos := 1;
      var length := ReadUvarint(data, pos);
      if length.Err? {
        return Some(length.error);
      }
      pos := length.value.next;
      if length.value.value > |data| - pos {
        return Some(BadLength(length.value.value));
      }
      content := data[pos..pos + length.value.value];
      pos := pos + length.value.value;
      var seconds := ReadInt64(data, pos);
      if seconds.Err? {
        return Some(seconds.error);
      }
      pos := seconds.value.next;
      lastUpdated := Time(seconds.value.value, 0);
      length := ReadUvarint(data, pos);
      if length.Err? {
        return Some(length.error);
      }
      pos := length.value.next;
      if length.value.value > |data| - pos {
        return Some(BadLength(length.value.value));
      }
      lastEtag := data[pos..pos + length.value.value];
      pos := pos + length.value.value;
      if version < 2 {
        return None;
      }
      length := ReadUvarint(data, pos);
      if length.Err? {
        return Some(length.error);
      }
      pos := length.value.next;
      if length.value.value > |data| - pos {
        return Some(BadLength(length.value.value));
      }
      urlHash := data[pos..pos + length.value.value];
      return None;
    }
  }
}
