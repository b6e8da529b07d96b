/** The packed directory entries carried, once reassembled, by the reply to READDIR_REQ. */
module DirEntries {
  import opened Bytes
  import opened FileTypes

  datatype DirEntry = DirEntry(inode: u64, fileType: FileType, filename: seq<byte>)

  /** The length field is one byte; longer names truncate it, as the source's cast does. */
  function PutEntry(e: DirEntry, t: seq<byte>): seq<byte> {
    PutU64(e.inode, PutU8(TypeCode(e.fileType), PutU8(|e.filename| % 0x100, PutBytes(e.filename, t))))
  }

  function GetEntry(s: seq<byte>): Read<DirEntry> {
    var (inode, s) :- GetU64(s);
    var (code, s) :- GetU8(s);
    var (fileType, s) :- TypeOfCode(code, s);
    var (n, s) :- GetU8(s);
    var (filename, s) :- GetBytes(n, s);
    Got(DirEntry(inode, fileType, filename), s)
  }

  lemma GetPutEntry(e: DirEntry, t: seq<byte>)
    requires |e.filename| < 0x100
    ensures GetEntry(PutEntry(e, t)) == Got(e, t)
  {
    hide GetU8, GetU64, GetBytes, PutU8, PutU64, PutBytes, TypeCode, TypeOfCode;
    GetPut();
    TypeCodesInvert(e.fileType, TypeCode(e.fileType), PutU8(|e.filename|, PutBytes(e.filename, t)));
  }

  lemma PutGetEntry(s: seq<byte>)
    requires GetEntry(s).Got?
    ensures s == PutEntry(GetEntry(s).value, GetEntry(s).rest)
    ensures |GetEntry(s).value.filename| < 0x100 && |GetEntry(s).rest| < |s|
  {
    hide GetU8, GetU64, GetBytes, PutU8, PutU64, PutBytes, TypeCode, TypeOfCode;
    PutGet();
    RestIsSuffix();
    PutLengths();
    var code, s2 := GetU8(GetU64(s).rest).value, GetU8(GetU64(s).rest).rest;
    TypeCodesInvert(Pipe, code, s2);
  }

  lemma PutEntryAppends(e: DirEntry, s: seq<byte>, t: seq<byte>)
    ensures PutEntry(e, s) + t == PutEntry(e, s + t)
    ensures |PutEntry(e, s)| == 10 + |e.filename| + |s|
  {
    assert PutEntry(e, s) + t == PutEntry(e, s + t) by {
      hide PutU8, PutU64, PutBytes, TypeCode;
      PutAppends(t);
    }
  }

  // ----- The payload -----

  function Pack(entries: seq<DirEntry>): seq<byte> {
    if entries == [] then [] else PutEntry(entries[0], Pack(entries[1..]))
  }

  /** Every entry in `s`, or nothing if some entry is cut short or malformed. */
  datatype Parse = Entries(list: seq<DirEntry>) | BadPayload

  function Unpack(s: seq<byte>): Parse
    decreases |s|
  {
    if s == [] then Entries([])
    else
      match GetEntry(s)
      case Got(e, rest) =>
        PutGetEntry(s);
        (match Unpack(rest)
         case Entries(list) => Entries([e] + list)
         case BadPayload => BadPayload)
      case _ => BadPayload
  }

  predicate ShortNames(entries: seq<DirEntry>) {
    forall e | e in entries :: |e.filename| < 0x100
  }

  /** Unpacking what was packed, with more bytes behind it, is unpacking those bytes with
      the entries in front. */
  lemma {:induction false} UnpackPacked(entries: seq<DirEntry>, t: seq<byte>)
    requires ShortNames(entries)
    ensures Unpack(Pack(entries) + t) ==
            match Unpack(t) case Entries(list) => Entries(entries + list) case BadPayload => BadPayload
    decreases |entries|
  {
    hide GetEntry, PutEntry;
    if entries == [] {
      assert [] + t == t;
      assert Unpack(t).Entries? ==> entries + Unpack(t).list == Unpack(t).list;
    } else {
      var tail := Pack(entries[1..]);
      PutEntryAppends(entries[0], tail, t);
      PutEntryAppends(entries[0], tail + t, []);
      GetPutEntry(entries[0], tail + t);
      UnpackPacked(entries[1..], t);
      if Unpack(t).Entries? {
        assert entries + Unpack(t).list == [entries[0]] + (entries[1..] + Unpack(t).list);
      }
    }
  }

  /** Parsing inverts serialising on every list whose names fit their length byte. */
  lemma PackRoundTrip(entries: seq<DirEntry>)
    ensures Unpack(Pack(entries)) == Entries(entries) <==> ShortNames(entries)
  {
    if ShortNames(entries) {
      UnpackPacked(entries, []);
      assert Pack(entries) + [] == Pack(entries);
      assert entries + [] == entries;
    } else if Unpack(Pack(entries)) == Entries(entries) {
      UnpackedIsPacked(Pack(entries));
    }
  }

  /** Whatever bytes parse, serialising the entries gives those bytes back. */
  lemma {:induction false} UnpackedIsPacked(s: seq<byte>)
    requires Unpack(s).Entries?
    ensures Pack(Unpack(s).list) == s
    ensures ShortNames(Unpack(s).list)
    decreases |s|
  {
    hide GetEntry, PutEntry;
    if s != [] {
      PutGetEntry(s);
      UnpackedIsPacked(GetEntry(s).rest);
    }
  }

  /** Parsing a concatenation of well-formed payloads concatenates the lists. */
  lemma UnpackConcat(a: seq<byte>, b: seq<byte>)
    requires Unpack(a).Entries? && Unpack(b).Entries?
    ensures Unpack(a + b) == Entries(Unpack(a).list + Unpack(b).list)
  {
    UnpackedIsPacked(a);
    UnpackPacked(Unpack(a).list, b);
  }

  // ----- The loops -----

  method ParseDirEntries(data: seq<byte>) returns (r: Parse)
    ensures r == Unpack(data)
  {
    hide GetEntry;
    var rest := data;
    var entries := [];
    while rest != []
      invariant Unpack(data) == match Unpack(rest)
                                case Entries(list) => Entries(entries + list)
                                case BadPayload => BadPayload
      decreases |rest|
    {
      match GetEntry(rest) {
        case Got(e, after) =>
          PutGetEntry(rest);
          ghost var u := Unpack(after);
          assert u.Entries? ==> entries + ([e] + u.list) == (entries + [e]) + u.list;
          entries, rest := entries + [e], after;
        case _ =>
          return BadPayload;
      }
    }
    assert entries + [] == entries;
    return Entries(entries);
  }

  lemma {:induction false} PackSnoc(entries: seq<DirEntry>, e: DirEntry)
    ensures Pack(entries + [e]) == Pack(entries) + PutEntry(e, [])
    decreases |entries|
  {
    hide PutEntry;
    if entries == [] {
      assert [e][1..] == [];
      assert Pack([e]) == PutEntry(e, Pack([e][1..]));
    } else {
      PackSnoc(entries[1..], e);
      assert (entries + [e])[1..] == entries[1..] + [e];
      PutEntryAppends(entries[0], Pack(entries[1..]), PutEntry(e, []));
    }
  }

  method SerializeDirEntries(entries: seq<DirEntry>) returns (data: seq<byte>)
    ensures data == Pack(entries)
  {
    hide PutEntry;
    data := [];
    for i := 0 to |entries|
      invariant data == Pack(entries[..i])
    {
      PackSnoc(entries[..i], entries[i]);
      assert entries[..i + 1] == entries[..i] + [entries[i]];
      data := data + PutEntry(entries[i], []);
    }
    assert entries[..|entries|] == entries;
  }
}
