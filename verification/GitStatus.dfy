/** The signature of a working tree, read as a function of git's NUL-separated
    listing: which trees it tells apart, and which it does not. */
module GitStatus {
  import opened Fnv
  import opened Wrappers
  import opened Sequences

  const CLEAN := "0"
  const SPACE: Byte := 0x20
  const RENAMED: Byte := 0x52
  const COPIED: Byte := 0x43
  const ABSENT: Bytes := [1, 0x61, 0x62, 0x73, 0x65, 0x6e, 0x74]

  /** One entry of the listing: `XY <path>`, then the origin of a rename or copy. */
  datatype Entry = Entry(x: Byte, y: Byte, path: Bytes, origin: Option<Bytes>)

  /** Size and modification time of one path, as 64-bit integers. */
  datatype Stat = Stat(size: Word, mtime: Word)

  /** What the file system answers about a path; None when it cannot. */
  type Lookup = Bytes -> Option<Stat>

  predicate Moved(x: Byte, y: Byte) {
    x == RENAMED || y == RENAMED || x == COPIED || y == COPIED
  }

  // ---- Cutting the stream into fields ----

  predicate NulFree(b: Bytes) {
    forall i | 0 <= i < |b| :: b[i] != 0
  }

  /** The length of the NUL-free prefix. */
  function UpToNul(b: Bytes): (n: nat)
    ensures n <= |b| && NulFree(b[..n]) && (n < |b| ==> b[n] == 0)
  {
    if b == [] || b[0] == 0 then 0
    else
      var m := UpToNul(b[1..]);
      assert b[..m + 1] == [b[0]] + b[1..][..m];
      m + 1
  }

  function NonEmpty(field: Bytes): seq<Bytes> {
    if field == [] then [] else [field]
  }

  /** The non-empty fields between NUL bytes. */
  function Fields(b: Bytes): seq<Bytes>
    decreases |b|
  {
    var n := UpToNul(b);
    if n == |b| then NonEmpty(b) else NonEmpty(b[..n]) + Fields(b[n + 1..])
  }

  lemma {:induction false} FirstNul(field: Bytes, rest: Bytes)
    requires NulFree(field)
    ensures UpToNul(field + [0] + rest) == |field|
    decreases |field|
  {
    var b := field + [0] + rest;
    if field != [] {
      assert b[1..] == field[1..] + [0] + rest;
      FirstNul(field[1..], rest);
    }
  }

  lemma FirstField(field: Bytes, rest: Bytes)
    requires NulFree(field) && field != []
    ensures Fields(field + [0] + rest) == [field] + Fields(rest)
  {
    var b := field + [0] + rest;
    FirstNul(field, rest);
    assert b[..|field|] == field && b[|field| + 1..] == rest;
  }

  // ---- Reading the fields back ----

  /** The entries among the fields: anything shorter than four bytes is not one,
      and a rename or copy takes the next field as its origin. */
  function Parse(fields: seq<Bytes>): (entries: seq<Entry>)
    decreases |fields|
  {
    if fields == [] then []
    else
      var f := fields[0];
      if |f| < 4 then Parse(fields[1..])
      else if Moved(f[0], f[1]) && |fields| > 1 then
        [Entry(f[0], f[1], f[3..], Some(fields[1]))] + Parse(fields[2..])
      else [Entry(f[0], f[1], f[3..], None)] + Parse(fields[1..])
  }

  function Paths(entries: seq<Entry>): (paths: seq<Bytes>)
    ensures |paths| == |entries|
    ensures forall i | 0 <= i < |entries| :: paths[i] == entries[i].path
  {
    seq(|entries|, i requires 0 <= i < |entries| => entries[i].path)
  }

  // ---- What is hashed ----

  /** Little-endian bytes. */
  function LittleEndian(n: nat, width: nat): (b: Bytes)
    ensures |b| == width
    decreases width
  {
    if width == 0 then [] else [n % 256] + LittleEndian(n / 256, width - 1)
  }

  function StatBytes(stat: Option<Stat>): (b: Bytes)
    ensures |b| == if stat.Some? then 16 else 7
  {
    match stat
    case Some(s) => LittleEndian(s.size, 8) + LittleEndian(s.mtime, 8)
    case None => ABSENT
  }

  /** What identifies an entry, without its metadata. */
  function NameBytes(e: Entry): Bytes {
    [e.x, e.y] + e.path + (if e.origin.Some? then e.origin.value else [])
  }

  function EntryBytes(e: Entry, stat: Option<Stat>): (b: Bytes)
    ensures |b| == |NameBytes(e)| + |StatBytes(stat)|
  {
    NameBytes(e) + StatBytes(stat)
  }

  function Stream(entries: seq<Entry>, stat: Lookup): Bytes
    decreases |entries|
  {
    if entries == [] then []
    else EntryBytes(entries[0], stat(entries[0].path)) + Stream(entries[1..], stat)
  }

  method HashEntry(hash: Fnv1a, e: Entry, found: Option<Stat>)
    requires hash.Valid()
    modifies hash
    ensures hash.Valid() && hash.written == old(hash.written) + EntryBytes(e, found)
  {
    var status := [e.x, e.y];
    hash.Write(status);
    hash.Write(e.path);
    Assoc(old(hash.written), status, e.path);
    if e.origin.Some? {
      hash.Write(e.origin.value);
      Assoc(old(hash.written), status + e.path, e.origin.value);
    }
    assert hash.written == old(hash.written) + NameBytes(e);
    match found {
      case Some(s) =>
        var size, mtime := LittleEndian(s.size, 8), LittleEndian(s.mtime, 8);
        hash.Write(size);
        hash.Write(mtime);
        Assoc(old(hash.written) + NameBytes(e), size, mtime);
      case None =>
        hash.Write(ABSENT);
    }
    Assoc(old(hash.written), NameBytes(e), StatBytes(found));
  }

  /** Fold the listing into one signature. `statted` is the trace of the paths
      looked up, in order. */
  method DirtySignature(porcelain: Bytes, stat: Lookup) returns (signature: string, statted: seq<Bytes>)
    ensures var entries := Parse(Fields(porcelain));
      && statted == Paths(entries)
      && signature == if entries == [] then CLEAN else ContentHash(Stream(entries, stat))
  {
    var hash := new Fnv1a();
    var chunks := Fields(porcelain);
    var count, i := 0, 0;
    statted := [];
    ghost var all := Parse(chunks);
    ghost var todo := all;
    assert chunks[0..] == chunks;
    while i < |chunks|
      invariant i <= |chunks| && hash.Valid() && fresh(hash)
      invariant todo == Parse(chunks[i..])
      invariant statted + Paths(todo) == Paths(all) && |statted| == count
      invariant hash.written + Stream(todo, stat) == Stream(all, stat)
    {
      var chunk := chunks[i];
      ParseStep(chunks, i);
      i := i + 1;
      if |chunk| < 4 {
        continue;
      }
      StreamStep(todo, stat, hash.written);
      PathsStep(todo, statted);
      var status, path, origin := chunk[..2], chunk[3..], None;
      if Moved(status[0], status[1]) && i < |chunks| {
        origin := Some(chunks[i]);
        i := i + 1;
      }
      HashEntry(hash, Entry(status[0], status[1], path, origin), stat(path));
      statted := statted + [path];
      count := count + 1;
      todo := todo[1..];
    }
    NothingLeft(chunks[i..], stat, statted, hash.written);
    if count == 0 {
      return CLEAN, statted;
    }
    signature := hash.Finish();
  }

  lemma NothingLeft(fields: seq<Bytes>, stat: Lookup, statted: seq<Bytes>, written: Bytes)
    requires fields == []
    ensures Parse(fields) == []
    ensures statted + Paths([]) == statted && written + Stream([], stat) == written
  {
    assert Paths([]) == [];
  }

  lemma ParseStep(fields: seq<Bytes>, i: nat)
    requires i < |fields|
    ensures var f, after := fields[i], Parse(fields[i + 1..]);
      Parse(fields[i..]) ==
        if |f| < 4 then after
        else if Moved(f[0], f[1]) && i + 1 < |fields| then
          [Entry(f[0], f[1], f[3..], Some(fields[i + 1]))] + Parse(fields[i + 2..])
        else [Entry(f[0], f[1], f[3..], None)] + after
  {
    assert fields[i..][1..] == fields[i + 1..];
    assert i + 1 < |fields| ==> fields[i..][2..] == fields[i + 2..];
  }

  lemma StreamStep(todo: seq<Entry>, stat: Lookup, written: Bytes)
    requires todo != []
    ensures written + Stream(todo, stat) == written + EntryBytes(todo[0], stat(todo[0].path)) + Stream(todo[1..], stat)
  {
    Assoc(written, EntryBytes(todo[0], stat(todo[0].path)), Stream(todo[1..], stat));
  }

  lemma PathsStep(todo: seq<Entry>, statted: seq<Bytes>)
    requires todo != []
    ensures statted + Paths(todo) == statted + [todo[0].path] + Paths(todo[1..])
  {
  }

  // ---- The listing git prints, read back ----

  /** What git prints: status bytes that are not NUL, a path that is neither
      empty nor holds a NUL, and an origin exactly where one of the status bytes is
      the letter R or C. */
  predicate WellFormed(e: Entry) {
    && e.x != 0 && e.y != 0 && e.path != [] && NulFree(e.path)
    && (e.origin.Some? <==> e.x == 0x52 || e.y == 0x52 || e.x == 0x43 || e.y == 0x43)
    && (e.origin.Some? ==> e.origin.value != [] && NulFree(e.origin.value))
  }

  function Line(e: Entry): Bytes {
    [e.x, e.y, SPACE] + e.path
  }

  function PrintEntry(e: Entry): Bytes {
    Line(e) + [0] + (if e.origin.Some? then e.origin.value + [0] else [])
  }

  function Print(entries: seq<Entry>): Bytes
    decreases |entries|
  {
    if entries == [] then [] else PrintEntry(entries[0]) + Print(entries[1..])
  }

  /** Every listing git can print is read back as the entries it was printed from. */
  lemma {:induction false} ListingReadBack(entries: seq<Entry>)
    requires forall e | e in entries :: WellFormed(e)
    ensures Parse(Fields(Print(entries))) == entries
    decreases |entries|
  {
    if entries != [] {
      ListingReadBack(entries[1..]);
      FieldsOfEntry(entries[0], Print(entries[1..]));
      EntryReadBack(entries[0], Fields(Print(entries[1..])));
      assert [entries[0]] + entries[1..] == entries;
    }
  }

  function FieldsOf(e: Entry): seq<Bytes> {
    [Line(e)] + (if e.origin.Some? then [e.origin.value] else [])
  }

  lemma FieldsOfEntry(e: Entry, rest: Bytes)
    requires WellFormed(e)
    ensures Fields(PrintEntry(e) + rest) == FieldsOf(e) + Fields(rest)
  {
    var line := Line(e);
    assert NulFree(line) && line != [];
    if e.origin.Some? {
      var origin := e.origin.value;
      assert PrintEntry(e) == line + [0] + (origin + [0]) && FieldsOf(e) == [line] + [origin];
      TwoFields(line, origin, rest);
    } else {
      assert PrintEntry(e) == line + [0] && FieldsOf(e) == [line];
      FirstField(line, rest);
    }
  }

  lemma TwoFields(a: Bytes, b: Bytes, rest: Bytes)
    requires a != [] && NulFree(a) && b != [] && NulFree(b)
    ensures Fields(a + [0] + (b + [0]) + rest) == [a] + [b] + Fields(rest)
  {
    FirstField(b, rest);
    FirstField(a, b + [0] + rest);
    Assoc(a + [0], b + [0], rest);
    Assoc([a], [b], Fields(rest));
  }

  lemma EntryReadBack(e: Entry, fields: seq<Bytes>)
    requires WellFormed(e)
    ensures Parse(FieldsOf(e) + fields) == [e] + Parse(fields)
  {
    var all := FieldsOf(e) + fields;
    assert Line(e)[3..] == e.path;
    assert all[|FieldsOf(e)|..] == fields;
  }

  /** On what git prints, the signature looks up exactly the destination paths in
      order, hashes exactly the entries' fields, and is the clean marker exactly
      for the empty listing. */
  method SignatureOfListing(entries: seq<Entry>, stat: Lookup) returns (signature: string, statted: seq<Bytes>)
    requires forall e | e in entries :: WellFormed(e)
    ensures statted == Paths(entries)
    ensures entries != [] ==> signature == ContentHash(Stream(entries, stat))
    ensures signature == CLEAN <==> entries == []
  {
    ListingReadBack(entries);
    signature, statted := DirtySignature(Print(entries), stat);
  }

  /** On any bytes at all: no entry is read exactly when every field is too short
      to be one. */
  lemma {:induction false} NoEntryExactly(fields: seq<Bytes>)
    ensures Parse(fields) == [] <==> forall f | f in fields :: |f| < 4
    decreases |fields|
  {
    if fields != [] {
      NoEntryExactly(fields[1..]);
      assert fields == [fields[0]] + fields[1..];
    }
  }

  // ---- What the signature can tell apart ----

  function Pow256(width: nat): (p: nat) {
    if width == 0 then 1 else 256 * Pow256(width - 1)
  }

  lemma {:induction false} LittleEndianInjective(a: nat, b: nat, width: nat)
    requires a < Pow256(width) && b < Pow256(width)
    requires LittleEndian(a, width) == LittleEndian(b, width)
    ensures a == b
    decreases width
  {
    if width > 0 {
      var x, y := LittleEndian(a, width), LittleEndian(b, width);
      assert x[0] == a % 256 && y[0] == b % 256;
      assert x[1..] == LittleEndian(a / 256, width - 1) && y[1..] == LittleEndian(b / 256, width - 1);
      LittleEndianInjective(a / 256, b / 256, width - 1);
    }
  }

  lemma WordFits(w: Word)
    ensures w < Pow256(8)
  {
    assert Pow256(4) == 0x1_0000_0000;
    assert Pow256(8) == 0x1_0000_0000 * Pow256(4);
  }

  lemma StatBytesInjective(a: Option<Stat>, b: Option<Stat>)
    requires a.Some? == b.Some? && StatBytes(a) == StatBytes(b)
    ensures a == b
  {
    if a.Some? {
      var x, y := StatBytes(a), StatBytes(b);
      assert LittleEndian(a.value.size, 8) == x[..8] == y[..8] == LittleEndian(b.value.size, 8);
      assert LittleEndian(a.value.mtime, 8) == x[8..] == y[8..] == LittleEndian(b.value.mtime, 8);
      WordFits(a.value.size);
      WordFits(b.value.size);
      WordFits(a.value.mtime);
      WordFits(b.value.mtime);
      LittleEndianInjective(a.value.size, b.value.size, 8);
      LittleEndianInjective(a.value.mtime, b.value.mtime, 8);
    }
  }

  /** An edit in place is visible: as long as no listed file appears or vanishes,
      the same listing hashes the same stream exactly when the size and mtime of
      every listed path are unchanged, although git's own output is. */
  lemma {:induction false} EditInPlaceVisible(entries: seq<Entry>, was: Lookup, now: Lookup)
    requires forall e | e in entries :: was(e.path).Some? == now(e.path).Some?
    ensures Stream(entries, was) == Stream(entries, now) <==> forall e | e in entries :: was(e.path) == now(e.path)
    decreases |entries|
  {
    if entries != [] {
      var e, rest := entries[0], entries[1..];
      assert entries == [e] + rest;
      EditInPlaceVisible(rest, was, now);
      var a, b := Stream(entries, was), Stream(entries, now);
      if a == b {
        var n, k := |NameBytes(e)|, |StatBytes(was(e.path))|;
        assert a == EntryBytes(e, was(e.path)) + Stream(rest, was);
        assert b == EntryBytes(e, now(e.path)) + Stream(rest, now);
        assert StatBytes(was(e.path)) == a[n..n + k] == b[n..n + k] == StatBytes(now(e.path));
        StatBytesInjective(was(e.path), now(e.path));
        assert Stream(rest, was) == a[n + k..] == b[n + k..] == Stream(rest, now);
      }
    }
  }

  lemma {:induction false} StreamAt(entries: seq<Entry>, stat: Lookup, i: nat)
    requires i < |entries|
    ensures Stream(entries, stat) ==
            Stream(entries[..i], stat) + EntryBytes(entries[i], stat(entries[i].path)) + Stream(entries[i + 1..], stat)
  {
    var e, rest := entries[0], entries[1..];
    if i == 0 {
      assert entries[..0] == [] && Stream(entries, stat) == [] + EntryBytes(e, stat(e.path)) + Stream(rest, stat);
    } else {
      var front := entries[..i];
      StreamAt(rest, stat, i - 1);
      assert front[1..] == rest[..i - 1] && rest[i..] == entries[i + 1..] && rest[i - 1] == entries[i];
      var a, b := Stream(front[1..], stat), EntryBytes(entries[i], stat(entries[i].path));
      Assoc(EntryBytes(e, stat(e.path)), a + b, Stream(entries[i + 1..], stat));
      Assoc(EntryBytes(e, stat(e.path)), a, b);
    }
  }

  lemma {:induction false} SameStream(entries: seq<Entry>, was: Lookup, now: Lookup)
    requires forall e | e in entries :: was(e.path) == now(e.path)
    ensures Stream(entries, was) == Stream(entries, now)
    decreases |entries|
  {
    if entries != [] {
      assert entries[0] in entries && forall e | e in entries[1..] :: e in entries;
      SameStream(entries[1..], was, now);
    }
  }

  /** The metadata of one entry inside the stream. */
  lemma StatInside(entries: seq<Entry>, stat: Lookup, i: nat, front: Bytes, after: Bytes)
    requires i < |entries|
    requires front == Stream(entries[..i], stat) + NameBytes(entries[i]) && after == Stream(entries[i + 1..], stat)
    ensures Stream(entries, stat) == front + StatBytes(stat(entries[i].path)) + after
  {
    StreamAt(entries, stat, i);
    Assoc(Stream(entries[..i], stat), NameBytes(entries[i]), StatBytes(stat(entries[i].path)));
  }

  /** An edit that changes one byte of one listed file's size or mtime, and nothing
      else git or the file system says, changes the signature. */
  lemma OneByteEditShows(entries: seq<Entry>, was: Lookup, now: Lookup, i: nat, k: nat)
    requires i < |entries| && forall j | 0 <= j < |entries| && j != i :: was(entries[j].path) == now(entries[j].path)
    requires DifferOnce(StatBytes(was(entries[i].path)), StatBytes(now(entries[i].path)), k)
    ensures ContentHash(Stream(entries, was)) != ContentHash(Stream(entries, now))
  {
    SameStream(entries[..i], was, now);
    SameStream(entries[i + 1..], was, now);
    var front, after := Stream(entries[..i], was) + NameBytes(entries[i]), Stream(entries[i + 1..], was);
    var at := StreamDiffersOnce(entries, was, now, i, k, front, after);
    DifferOnceShows(Stream(entries, was), Stream(entries, now), at);
  }

  lemma StreamDiffersOnce(entries: seq<Entry>, was: Lookup, now: Lookup, i: nat, k: nat, front: Bytes, after: Bytes)
    returns (at: nat)
    requires i < |entries|
    requires front == Stream(entries[..i], was) + NameBytes(entries[i]) && after == Stream(entries[i + 1..], was)
    requires front == Stream(entries[..i], now) + NameBytes(entries[i]) && after == Stream(entries[i + 1..], now)
    requires DifferOnce(StatBytes(was(entries[i].path)), StatBytes(now(entries[i].path)), k)
    ensures DifferOnce(Stream(entries, was), Stream(entries, now), at)
  {
    StatInside(entries, was, i, front, after);
    StatInside(entries, now, i, front, after);
    DifferOnceInside(front, StatBytes(was(entries[i].path)), StatBytes(now(entries[i].path)), after, k);
    at := |front| + k;
  }

  // ---- Without separators ----

  function Origin(e: Entry): Bytes {
    if e.origin.Some? then e.origin.value else []
  }

  lemma NameParts(e: Entry)
    ensures |NameBytes(e)| == 2 + |e.path| + |Origin(e)|
    ensures NameBytes(e)[0] == e.x && NameBytes(e)[1] == e.y
    ensures NameBytes(e)[2..] == e.path + Origin(e)
    ensures NameBytes(e)[2..2 + |e.path|] == e.path && NameBytes(e)[2 + |e.path|..] == Origin(e)
  {
    var n := NameBytes(e);
    assert n == [e.x, e.y] + (e.path + Origin(e));
    assert n == [e.x, e.y] + e.path + Origin(e);
  }

  lemma SameEntry(e: Entry, f: Entry)
    requires WellFormed(e) && WellFormed(f)
    requires e.x == f.x && e.y == f.y && e.path == f.path && Origin(e) == Origin(f)
    ensures e == f
  {
  }

  /** The fields of an entry are hashed without separators. Two well-formed entries
      hash the same name bytes exactly when they are the same entry, or renames or
      copies of the same status whose two names run together to the same bytes and
      part in different places. */
  lemma NamesCollideExactly(e: Entry, f: Entry)
    requires WellFormed(e) && WellFormed(f)
    ensures NameBytes(e) == NameBytes(f) <==>
      || e == f
      || (e.origin.Some? && f.origin.Some? && e.x == f.x && e.y == f.y
          && e.path + Origin(e) == f.path + Origin(f) && |e.path| != |f.path|)
  {
    NameParts(e);
    NameParts(f);
    if NameBytes(e) == NameBytes(f) {
      assert e.origin.None? ==> Origin(e) == [] && e.path + [] == e.path;
      assert f.origin.None? ==> Origin(f) == [] && f.path + [] == f.path;
      if |e.path| == |f.path| {
        SameEntry(e, f);
      }
    }
    if e.x == f.x && e.y == f.y && e.path + Origin(e) == f.path + Origin(f) {
      assert NameBytes(e) == [e.x, e.y] + (e.path + Origin(e));
      assert NameBytes(f) == [f.x, f.y] + (f.path + Origin(f));
    }
  }

  /** No file is as large as 2 to the 56 bytes. */
  predicate Modest(stat: Option<Stat>) {
    stat.Some? ==> stat.value.size < 0x100_0000_0000_0000
  }

  /** Two well-formed listings that differ at most in bytes, not in the lengths of
      names, and two states of the file system with no such file among them. */
  predicate Comparable(es: seq<Entry>, fs: seq<Entry>, was: Lookup, now: Lookup) {
    && |es| == |fs|
    && forall i | 0 <= i < |es| ::
      && WellFormed(es[i]) && WellFormed(fs[i])
      && |es[i].path| == |fs[i].path| && |Origin(es[i])| == |Origin(fs[i])|
      && Modest(was(es[i].path)) && Modest(now(fs[i].path))
  }

  /** Every size, mtime and absence is the same. */
  predicate SameStats(entries: seq<Entry>, was: Lookup, now: Lookup) {
    forall i | 0 <= i < |entries| :: was(entries[i].path) == now(entries[i].path)
  }

  lemma {:induction false} TopByteZero(n: nat, width: nat)
    requires width > 0 && n < Pow256(width - 1)
    ensures LittleEndian(n, width)[width - 1] == 0
    decreases width
  {
    if width > 1 {
      TopByteZero(n / 256, width - 1);
      assert LittleEndian(n, width) == [n % 256] + LittleEndian(n / 256, width - 1);
    } else {
      assert n == 0;
    }
  }

  lemma ModestTop(stat: Option<Stat>)
    requires stat.Some? && Modest(stat)
    ensures StatBytes(stat)[7] == 0
  {
    assert Pow256(4) == 0x1_0000_0000;
    assert Pow256(7) == 256 * 256 * 256 * Pow256(4);
    TopByteZero(stat.value.size, 8);
    assert StatBytes(stat)[7] == LittleEndian(stat.value.size, 8)[7];
  }

  /** Metadata cannot be taken for its absence: after the absent marker the stream
      ends or goes on with a status byte, which is not zero. */
  lemma PresenceShows(s: Option<Stat>, rest: Bytes, t: Option<Stat>, other: Bytes)
    requires s.Some? && Modest(s) && t.None?
    requires |rest| == 0 ==> |other| == 0
    requires other != [] ==> other[0] != 0
    ensures StatBytes(s) + rest != StatBytes(t) + other
  {
    var a, b := StatBytes(s) + rest, StatBytes(t) + other;
    ModestTop(s);
    assert a[7] == StatBytes(s)[7];
    if other != [] {
      assert b[7] == other[0];
    }
  }

  lemma StreamStarts(entries: seq<Entry>, stat: Lookup)
    requires forall i | 0 <= i < |entries| :: WellFormed(entries[i])
    ensures Stream(entries, stat) == [] <==> entries == []
    ensures entries != [] ==> Stream(entries, stat)[0] != 0
  {
    if entries != [] {
      NameParts(entries[0]);
      assert Stream(entries, stat) == EntryBytes(entries[0], stat(entries[0].path)) + Stream(entries[1..], stat);
      assert EntryBytes(entries[0], stat(entries[0].path))[0] == entries[0].x;
    }
  }

  /** The first entries, when two streams of the same shape agree. */
  lemma HeadShows(e: Entry, f: Entry, s: Option<Stat>, t: Option<Stat>, rest: Bytes, other: Bytes)
    requires WellFormed(e) && WellFormed(f) && |e.path| == |f.path| && |Origin(e)| == |Origin(f)|
    requires Modest(s) && Modest(t) && (rest == [] <==> other == [])
    requires (rest != [] ==> rest[0] != 0) && (other != [] ==> other[0] != 0)
    requires EntryBytes(e, s) + rest == EntryBytes(f, t) + other
    ensures e == f && s == t && rest == other
  {
    NameParts(e);
    NameParts(f);
    Assoc(NameBytes(e), StatBytes(s), rest);
    Assoc(NameBytes(f), StatBytes(t), other);
    SplitEqual(NameBytes(e), StatBytes(s) + rest, NameBytes(f), StatBytes(t) + other);
    SameEntry(e, f);
    if s.Some? && t.None? {
      PresenceShows(s, rest, t, other);
    } else if s.None? && t.Some? {
      PresenceShows(t, other, s, rest);
    } else {
      SplitEqual(StatBytes(s), rest, StatBytes(t), other);
      StatBytesInjective(s, t);
    }
  }

  lemma SplitEqual(a: Bytes, b: Bytes, c: Bytes, d: Bytes)
    requires |a| == |c| && a + b == c + d
    ensures a == c && b == d
  {
    assert a == (a + b)[..|a|] && b == (a + b)[|a|..];
    assert c == (c + d)[..|c|] && d == (c + d)[|c|..];
  }

  /** Listings whose names have the same lengths hash the same stream exactly when
      they are the same listing and every size, mtime and absence is the same, as
      long as no file reaches 2 to the 56 bytes. With one listing on both sides: any
      edit in place, appearance or disappearance shows. */
  lemma {:induction false} ListingsTellApart(es: seq<Entry>, fs: seq<Entry>, was: Lookup, now: Lookup)
    requires Comparable(es, fs, was, now)
    ensures Stream(es, was) == Stream(fs, now) <==> es == fs && SameStats(es, was, now)
    decreases |es|
  {
    if es != [] {
      var rest, other := es[1..], fs[1..];
      ComparableTails(es, fs, was, now);
      ListingsTellApart(rest, other, was, now);
      FirstTellsApart(es, fs, was, now, Stream(rest, was), Stream(other, now));
      SameHeads(es, fs, rest, other);
      SameStatsStep(es, was, now);
    }
  }

  lemma SameHeads<T>(a: seq<T>, b: seq<T>, x: seq<T>, y: seq<T>)
    requires a != [] && b != [] && x == a[1..] && y == b[1..]
    ensures a == b <==> a[0] == b[0] && x == y
  {
    assert a == [a[0]] + x && b == [b[0]] + y;
  }

  lemma SameStatsStep(es: seq<Entry>, was: Lookup, now: Lookup)
    requires es != []
    ensures SameStats(es, was, now) <==> was(es[0].path) == now(es[0].path) && SameStats(es[1..], was, now)
  {
    if SameStats(es, was, now) {
      forall i | 0 <= i < |es[1..]|
        ensures was(es[1..][i].path) == now(es[1..][i].path)
      {
        assert es[1..][i] == es[i + 1];
      }
    }
    if was(es[0].path) == now(es[0].path) && SameStats(es[1..], was, now) {
      forall i | 0 <= i < |es|
        ensures was(es[i].path) == now(es[i].path)
      {
        assert i > 0 ==> es[i] == es[1..][i - 1];
      }
    }
  }

  lemma ComparableTails(es: seq<Entry>, fs: seq<Entry>, was: Lookup, now: Lookup)
    requires es != [] && Comparable(es, fs, was, now)
    ensures Comparable(es[1..], fs[1..], was, now)
  {
    forall i | 0 <= i < |es| - 1
      ensures es[1..][i] == es[i + 1] && fs[1..][i] == fs[i + 1]
    {
    }
  }

  lemma FirstTellsApart(es: seq<Entry>, fs: seq<Entry>, was: Lookup, now: Lookup, rest: Bytes, other: Bytes)
    requires es != [] && Comparable(es, fs, was, now)
    requires rest == Stream(es[1..], was) && other == Stream(fs[1..], now)
    ensures Stream(es, was) == Stream(fs, now) <==>
            es[0] == fs[0] && was(es[0].path) == now(fs[0].path) && rest == other
  {
    var e, f := es[0], fs[0];
    StreamStarts(es[1..], was);
    StreamStarts(fs[1..], now);
    if EntryBytes(e, was(e.path)) + rest == EntryBytes(f, now(f.path)) + other {
      HeadShows(e, f, was(e.path), now(f.path), rest, other);
    }
  }

  /** Two listings git prints differently and the signature does not tell apart: a
      rename of `c` to `ab`, and one of `bc` to `a`. */
  lemma RenamesCollide(stat: Lookup) returns (e: Entry, f: Entry)
    requires stat([97, 98]) == stat([97])
    ensures e == Entry(RENAMED, SPACE, [97, 98], Some([99])) && f == Entry(RENAMED, SPACE, [97], Some([98, 99]))
    ensures WellFormed(e) && WellFormed(f) && e != f && Print([e]) != Print([f])
    ensures Stream([e], stat) == Stream([f], stat)
  {
    e, f := Entry(RENAMED, SPACE, [97, 98], Some([99])), Entry(RENAMED, SPACE, [97], Some([98, 99]));
    assert e.path + Origin(e) == [97, 98, 99] == f.path + Origin(f);
    NamesCollideExactly(e, f);
    assert [e][1..] == [] && [f][1..] == [];
    ListingReadBack([e]);
    ListingReadBack([f]);
    assert [e][0] != [f][0];
  }

  lemma TwoStream(e: Entry, f: Entry, stat: Lookup)
    ensures Stream([e, f], stat) == EntryBytes(e, stat(e.path)) + EntryBytes(f, stat(f.path))
  {
    assert [e, f][1..] == [f] && [f][1..] == [];
    assert Stream([], stat) == [];
    assert EntryBytes(f, stat(f.path)) + [] == EntryBytes(f, stat(f.path));
  }

  lemma MoveBoundary(h: Bytes, p: Bytes, o: Bytes, a: Bytes, r: Bytes, q: Bytes, z: Bytes)
    ensures (h + p + o + a) + (h + r + (a + h + q + z) + a) == (h + p + (o + a + h + r) + a) + (h + q + z + a)
  {
  }

  /** Equal lengths of the destinations alone are not enough: an origin can spell the
      absent marker and a whole entry. Two pairs of renames of one-byte names, none of
      them on disk, that hash the same stream. */
  lemma OriginsCollide(stat: Lookup) returns (es: seq<Entry>, fs: seq<Entry>)
    requires forall path :: stat(path) == None
    ensures |es| == |fs| == 2 && es != fs
    ensures forall i | 0 <= i < 2 :: WellFormed(es[i]) && WellFormed(fs[i]) && |es[i].path| == |fs[i].path| == 1
    ensures Stream(es, stat) == Stream(fs, stat)
  {
    var h, p, o, r, q, z := [RENAMED, SPACE], [112], [111], [114], [113], [122];
    var inner, outer := ABSENT + h + q + z, o + ABSENT + h + r;
    var a, b := Entry(RENAMED, SPACE, p, Some(o)), Entry(RENAMED, SPACE, r, Some(inner));
    var c, d := Entry(RENAMED, SPACE, p, Some(outer)), Entry(RENAMED, SPACE, q, Some(z));
    es, fs := [a, b], [c, d];
    assert es[1].path != fs[1].path;
    TwoStream(a, b, stat);
    TwoStream(c, d, stat);
    MoveBoundary(h, p, o, ABSENT, r, q, z);
  }
}
