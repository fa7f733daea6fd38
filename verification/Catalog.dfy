/** The schema catalog and its codec (src/catalog/mod.rs).  Names are their UTF-8 bytes; which byte
    strings are UTF-8, and the checksum, are parameters. */
module Catalog {
  import opened Frames

  type Byte = b: int | 0 <= b < 256

  type Bytes = seq<Byte>

  type Name = Bytes

  const U16: int := 0x1_0000
  const U32: int := 0x1_0000_0000
  const U64: int := 0x1_0000_0000_0000_0000

  const CATALOG_MAGIC: nat := 0x5247_4341_544C_4700
  const CATALOG_HEADER_LEN: nat := 16

  // ---------------------------------------------------------------- little-endian numbers

  function Pow256(k: nat): nat {
    if k == 0 then 1 else 256 * Pow256(k - 1)
  }

  function ToLE(n: nat, k: nat): (bs: Bytes)
    ensures |bs| == k
  {
    if k == 0 then [] else [n % 256] + ToLE(n / 256, k - 1)
  }

  function FromLE(bs: Bytes): (n: nat)
    ensures n < Pow256(|bs|)
  {
    if bs == [] then 0 else bs[0] + 256 * FromLE(bs[1..])
  }

  lemma {:induction false} LERoundTrip(n: nat, k: nat)
    requires n < Pow256(k)
    ensures FromLE(ToLE(n, k)) == n
  {
    if k > 0 {
      LERoundTrip(n / 256, k - 1);
      assert ToLE(n, k)[1..] == ToLE(n / 256, k - 1);
    }
  }

  /** The `i`-th byte is the `i`-th digit to base 256, the lowest first. */
  lemma {:induction false} LEDigits(n: nat, k: nat, i: nat)
    requires i < k
    ensures Pow256(i) > 0 && ToLE(n, k)[i] == (n / Pow256(i)) % 256
  {
    if i > 0 {
      LEDigits(n / 256, k - 1, i - 1);
      DivideTwice(n, Pow256(i - 1));
    }
  }

  lemma DivideTwice(n: nat, m: nat)
    requires m > 0
    ensures (n / 256) / m == n / (256 * m)
  {
    var q, r := n / 256, n % 256;
    var p, s := q / m, q % m;
    assert n == 256 * (m * p + s) + r;
    assert n == (256 * m) * p + (256 * s + r);
    assert 256 * s + r < 256 * m;
    Quotient(n, 256 * m, p, 256 * s + r);
  }

  lemma Quotient(n: nat, d: nat, p: nat, r: nat)
    requires d > 0 && n == d * p + r && r < d
    ensures n / d == p
  {
    var q, s := n / d, n % d;
    assert n == d * q + s && s < d;
    if q > p {
      Further(d, p, q);
    } else if p > q {
      Further(d, q, p);
    }
  }

  lemma {:induction false} Further(d: nat, p: nat, q: nat)
    requires p < q
    ensures d * q >= d * p + d
  {
    if q > p + 1 {
      Further(d, p, q - 1);
    }
    assert d * q == d * (q - 1) + d;
  }

  lemma Pow256Values()
    ensures Pow256(2) == U16 && Pow256(4) == U32 && Pow256(8) == U64
  {
    assert Pow256(3) == 256 * Pow256(2);
    assert Pow256(4) == 256 * Pow256(3);
    assert Pow256(5) == 256 * Pow256(4);
    assert Pow256(6) == 256 * Pow256(5);
    assert Pow256(7) == 256 * Pow256(6);
    assert Pow256(8) == 256 * Pow256(7);
  }

  // ---------------------------------------------------------------- sections

  /** Names to ids, ids to names, and the next id. */
  datatype Section = Section(ids: map<Name, nat>, names: map<nat, Name>, next: nat)

  const EMPTY: Section := Section(map[], map[], 1)

  predicate HasId(s: Section, n: Name, i: nat) {
    n in s.ids && s.ids[n] == i
  }

  predicate HasName(s: Section, n: Name, i: nat) {
    i in s.names && s.names[i] == n
  }

  /** The two maps are inverse, and the ids given out are 1 to `next - 1`. */
  ghost predicate Inv(utf8: Name -> bool, s: Section) {
    && 1 <= s.next < U32
    && (forall n: Name, i: nat :: HasId(s, n, i) <==> HasName(s, n, i))
    && (forall n | n in s.ids :: utf8(n))
    && (forall i: nat :: i in s.names <==> 1 <= i < s.next)
    && |s.ids| == s.next - 1
  }

  /** One more, in 32 bits. */
  function Bump(n: nat): nat {
    if n + 1 == U32 then 0 else n + 1
  }

  /** `get_or_create_label` and its likes */
  function Register(s: Section, name: Name): Section {
    if name in s.ids then s
    else Section(s.ids[name := s.next], s.names[s.next := name], Bump(s.next))
  }

  /** Registering keeps the section consistent and every id given out, and finds the name afterwards. */
  lemma RegisterKeeps(utf8: Name -> bool, s: Section, name: Name)
    requires Inv(utf8, s) && utf8(name) && (name !in s.ids ==> s.next + 1 < U32)
    ensures Inv(utf8, Register(s, name)) && name in Register(s, name).ids
    ensures forall n | n in s.ids :: n in Register(s, name).ids && Register(s, name).ids[n] == s.ids[n]
    ensures Register(Register(s, name), name) == Register(s, name)
  {
    hide Inv;
    InvNext(utf8, s);
    if name !in s.ids {
      RegisterNew(utf8, s, name);
    }
  }

  lemma InvNext(utf8: Name -> bool, s: Section)
    requires Inv(utf8, s)
    ensures 1 <= s.next && s.next !in s.names
  {
  }

  lemma RegisterNew(utf8: Name -> bool, s: Section, name: Name)
    requires Inv(utf8, s) && utf8(name) && s.next + 1 < U32 && name !in s.ids
    ensures Inv(utf8, Register(s, name))
  {
    hide HasId, HasName;
    InvNext(utf8, s);
    NewNames(s, name);
    forall n: Name, i: nat ensures HasId(Register(s, name), n, i) <==> HasName(Register(s, name), n, i) {
      StillInverse(s, name, n, i);
    }
  }

  lemma NewNames(s: Section, name: Name)
    requires s.next + 1 < U32 && name !in s.ids && 1 <= s.next
    requires forall i: nat :: i in s.names <==> 1 <= i < s.next
    ensures var s' := Register(s, name);
            s'.next == s.next + 1 && |s'.ids| == |s.ids| + 1 && forall i: nat :: i in s'.names <==> 1 <= i < s'.next
  {
  }

  lemma StillInverse(s: Section, name: Name, n: Name, i: nat)
    requires name !in s.ids && s.next + 1 < U32 && s.next !in s.names
    requires forall n: Name, i: nat :: HasId(s, n, i) <==> HasName(s, n, i)
    ensures HasId(Register(s, name), n, i) <==> HasName(Register(s, name), n, i)
  {
    assert HasId(s, n, i) <==> HasName(s, n, i);
    assert HasId(s, name, i) <==> HasName(s, name, i);
    assert HasId(s, n, s.next) <==> HasName(s, n, s.next);
  }

  function RegisterAll(s: Section, names: seq<Name>): Section
    decreases |names|
  {
    if names == [] then s else RegisterAll(Register(s, names[0]), names[1..])
  }

  /** Every section reached by registering names is consistent. */
  lemma {:induction false} ReachableInv(utf8: Name -> bool, s: Section, names: seq<Name>)
    requires Inv(utf8, s) && s.next + |names| < U32 && forall i | 0 <= i < |names| :: utf8(names[i])
    ensures Inv(utf8, RegisterAll(s, names))
    decreases |names|
  {
    if names != [] {
      RegisterKeeps(utf8, s, names[0]);
      ReachableInv(utf8, Register(s, names[0]), names[1..]);
    }
  }

  lemma EmptyInv(utf8: Name -> bool)
    ensures Inv(utf8, EMPTY)
  {
  }

  // ---------------------------------------------------------------- encoding

  /** `order` goes through the map once. */
  ghost predicate Enumerates(order: seq<Name>, ids: map<Name, nat>) {
    && (forall i | 0 <= i < |order| :: order[i] in ids)
    && (forall i, j | 0 <= i < j < |order| :: order[i] != order[j])
    && (forall n | n in ids :: n in order)
  }

  function EntryBytes(id: nat, name: Name): Bytes {
    ToLE(id, 4) + ToLE(|name| % U16, 2) + name
  }

  /** An entry is its id in four bytes, the length of its name in two, and the name. */
  lemma EntryLayout(id: nat, name: Name)
    requires id < U32
    ensures var bs := EntryBytes(id, name);
            |bs| == 6 + |name| && FromLE(bs[0..4]) == id && FromLE(bs[4..6]) == |name| % U16 && bs[6..] == name
  {
    Pow256Values();
    LERoundTrip(id, 4);
    LERoundTrip(|name| % U16, 2);
    var bs := EntryBytes(id, name);
    assert bs[0..4] == ToLE(id, 4) && bs[4..6] == ToLE(|name| % U16, 2);
  }

  function EntriesBytes(ids: map<Name, nat>, order: seq<Name>): Bytes
    requires forall i | 0 <= i < |order| :: order[i] in ids
  {
    if order == [] then [] else EntryBytes(ids[order[0]], order[0]) + EntriesBytes(ids, order[1..])
  }

  function SectionBytes(ids: map<Name, nat>, order: seq<Name>): Bytes
    requires forall i | 0 <= i < |order| :: order[i] in ids
  {
    ToLE(|ids| % U32, 4) + EntriesBytes(ids, order)
  }

  // ---------------------------------------------------------------- decoding

  /** A number of `k` bytes, and what follows it. */
  function ReadLE(bs: Bytes, k: nat): Option<(nat, Bytes)> {
    if |bs| < k then None else Some((FromLE(bs[..k]), bs[k..]))
  }

  /** An entry, and what follows it. */
  function DecodeEntry(utf8: Name -> bool, bs: Bytes): Option<(nat, Name, Bytes)> {
    match ReadLE(bs, 4)
    case None => None
    case Some((id, r1)) =>
      match ReadLE(r1, 2)
      case None => None
      case Some((len, r2)) =>
        if len > |r2| || !utf8(r2[..len]) then None else Some((id, r2[..len], r2[len..]))
  }

  /** What a section's entries have given so far. */
  datatype Decoding = Decoding(ids: map<Name, nat>, names: map<nat, Name>, maxId: nat)

  function Add(d: Decoding, id: nat, name: Name): Decoding {
    Decoding(d.ids[name := id], d.names[id := name], if id > d.maxId then id else d.maxId)
  }

  function DecodeEntries(utf8: Name -> bool, bs: Bytes, count: nat, d: Decoding): Option<(Decoding, Bytes)> {
    if count == 0 then Some((d, bs))
    else
      match DecodeEntry(utf8, bs)
      case None => None
      case Some((id, name, rest)) => DecodeEntries(utf8, rest, count - 1, Add(d, id, name))
  }

  const NOTHING: Decoding := Decoding(map[], map[], 0)

  function Finished(d: Decoding): Section {
    Section(d.ids, d.names, Bump(d.maxId))
  }

  function DecodeSection(utf8: Name -> bool, bs: Bytes): Option<(Section, Bytes)> {
    match ReadLE(bs, 4)
    case None => None
    case Some((count, rest)) =>
      match DecodeEntries(utf8, rest, count, NOTHING)
      case None => None
      case Some((d, rest')) => Some((Finished(d), rest'))
  }

  // ---------------------------------------------------------------- a section comes back

  ghost predicate NamesFit(ids: map<Name, nat>) {
    forall n | n in ids :: |n| < U16
  }

  lemma ReadsBack(n: nat, k: nat, rest: Bytes)
    requires n < Pow256(k)
    ensures ReadLE(ToLE(n, k) + rest, k) == Some((n, rest))
  {
    LERoundTrip(n, k);
    var bs := ToLE(n, k) + rest;
    assert bs[..k] == ToLE(n, k) && bs[k..] == rest;
  }

  lemma EntryReadsBack(utf8: Name -> bool, id: nat, name: Name, rest: Bytes)
    requires id < U32 && |name| < U16 && utf8(name)
    ensures DecodeEntry(utf8, EntryBytes(id, name) + rest) == Some((id, name, rest))
  {
    hide ToLE, FromLE;
    Pow256Values();
    var r2 := name + rest;
    var r1 := ToLE(|name|, 2) + r2;
    assert EntryBytes(id, name) + rest == ToLE(id, 4) + r1;
    ReadsBack(id, 4, r1);
    ReadsBack(|name|, 2, r2);
    assert r2[..|name|] == name && r2[|name|..] == rest;
  }

  /** What the entries of `order` add. */
  ghost function AddAll(ids: map<Name, nat>, order: seq<Name>, d: Decoding): Decoding
    requires forall i | 0 <= i < |order| :: order[i] in ids
    decreases |order|
  {
    if order == [] then d else AddAll(ids, order[1..], Add(d, ids[order[0]], order[0]))
  }

  lemma {:induction false} EntriesReadBack(utf8: Name -> bool, ids: map<Name, nat>, order: seq<Name>, rest: Bytes, d: Decoding)
    requires forall i | 0 <= i < |order| :: order[i] in ids && ids[order[i]] < U32 && |order[i]| < U16 && utf8(order[i])
    ensures DecodeEntries(utf8, EntriesBytes(ids, order) + rest, |order|, d) == Some((AddAll(ids, order, d), rest))
    decreases |order|
  {
    hide DecodeEntry, EntryBytes;
    if order == [] {
      assert EntriesBytes(ids, order) + rest == rest;
    } else {
      var after := EntriesBytes(ids, order[1..]) + rest;
      assert EntriesBytes(ids, order) + rest == EntryBytes(ids[order[0]], order[0]) + after;
      EntryReadsBack(utf8, ids[order[0]], order[0], after);
      EntriesReadBack(utf8, ids, order[1..], rest, Add(d, ids[order[0]], order[0]));
    }
  }

  /** The entries added are those of `order`. */
  lemma {:induction false} AddAllIs(s: Section, order: seq<Name>, d: Decoding)
    requires forall i | 0 <= i < |order| :: order[i] in s.ids
    ensures var r := AddAll(s.ids, order, d);
            && (forall n :: n in r.ids <==> n in d.ids || n in order)
            && (forall n | n in r.ids :: r.ids[n] == if n in order then s.ids[n] else d.ids[n])
    decreases |order|
  {
    if order != [] {
      assert order == [order[0]] + order[1..];
      AddAllIs(s, order[1..], Add(d, s.ids[order[0]], order[0]));
    }
  }

  /** And so are the names added; those of the section stay its names. */
  lemma {:induction false} AddAllNames(utf8: Name -> bool, s: Section, order: seq<Name>, d: Decoding)
    requires Inv(utf8, s) && (forall i | 0 <= i < |order| :: order[i] in s.ids)
    requires forall i | i in d.names :: HasName(s, d.names[i], i)
    ensures var r := AddAll(s.ids, order, d);
            && (forall i | i in r.names :: HasName(s, r.names[i], i))
            && (forall i | i in d.names :: i in r.names)
            && (forall n | n in order :: s.ids[n] in r.names)
    decreases |order|
  {
    if order != [] {
      assert order == [order[0]] + order[1..];
      var id := s.ids[order[0]];
      assert HasId(s, order[0], id);
      AddAllNames(utf8, s, order[1..], Add(d, id, order[0]));
      assert id in Add(d, id, order[0]).names;
    }
  }

  lemma {:induction false} AddAllMax(s: Section, order: seq<Name>, d: Decoding)
    requires (forall i | 0 <= i < |order| :: order[i] in s.ids && s.ids[order[i]] < s.next) && d.maxId < s.next
    ensures var r := AddAll(s.ids, order, d);
            d.maxId <= r.maxId < s.next && (forall n | n in order :: s.ids[n] <= r.maxId)
    decreases |order|
  {
    if order != [] {
      assert order == [order[0]] + order[1..];
      AddAllMax(s, order[1..], Add(d, s.ids[order[0]], order[0]));
    }
  }

  lemma OrderLength(order: seq<Name>, ids: map<Name, nat>)
    requires Enumerates(order, ids)
    ensures |order| == |ids|
  {
    DistinctLength(order);
    assert (set n | n in order) == ids.Keys;
  }

  lemma {:induction false} DistinctLength(order: seq<Name>)
    requires forall i, j | 0 <= i < j < |order| :: order[i] != order[j]
    ensures |set n | n in order| == |order|
  {
    if order != [] {
      DistinctLength(order[1..]);
      assert (set n | n in order) == (set n | n in order[1..]) + {order[0]};
    }
  }

  lemma IdsBounded(utf8: Name -> bool, s: Section, n: Name)
    requires Inv(utf8, s) && n in s.ids
    ensures 1 <= s.ids[n] < s.next && s.ids[n] in s.names && s.names[s.ids[n]] == n
  {
    assert HasId(s, n, s.ids[n]);
  }

  /** All entries added make up the section. */
  lemma AllAdded(utf8: Name -> bool, s: Section, order: seq<Name>)
    requires Inv(utf8, s) && Enumerates(order, s.ids)
    ensures Finished(AddAll(s.ids, order, NOTHING)) == s
  {
    hide AddAll, Inv, HasId, HasName;
    AddAllIs(s, order, NOTHING);
    assert AddAll(s.ids, order, NOTHING).ids == s.ids;
    AddAllNames(utf8, s, order, NOTHING);
    NamesAll(utf8, s, order, AddAll(s.ids, order, NOTHING).names);
    MaxIsLast(utf8, s, order);
  }

  lemma MaxIsLast(utf8: Name -> bool, s: Section, order: seq<Name>)
    requires Inv(utf8, s) && Enumerates(order, s.ids)
    ensures AddAll(s.ids, order, NOTHING).maxId == s.next - 1 < U32 - 1
  {
    hide AddAll;
    forall i | 0 <= i < |order| ensures s.ids[order[i]] < s.next {
      IdsBounded(utf8, s, order[i]);
    }
    AddAllMax(s, order, NOTHING);
    if s.next > 1 {
      var last := s.names[s.next - 1];
      assert HasName(s, last, s.next - 1);
      assert HasId(s, last, s.next - 1);
    }
  }

  lemma NamesAll(utf8: Name -> bool, s: Section, order: seq<Name>, names: map<nat, Name>)
    requires Inv(utf8, s) && Enumerates(order, s.ids)
    requires (forall i | i in names :: HasName(s, names[i], i)) && (forall n | n in order :: s.ids[n] in names)
    ensures names == s.names
  {
    forall i | i in s.names ensures i in names {
      assert HasName(s, s.names[i], i);
      assert HasId(s, s.names[i], i);
    }
  }

  /** Whatever order the map is gone through, its section comes back: both maps and the next id. */
  lemma SectionReadsBack(utf8: Name -> bool, s: Section, order: seq<Name>, rest: Bytes)
    requires Inv(utf8, s) && NamesFit(s.ids) && Enumerates(order, s.ids)
    ensures DecodeSection(utf8, SectionBytes(s.ids, order) + rest) == Some((s, rest))
  {
    hide DecodeEntries, EntriesBytes, ToLE, FromLE, AddAll, Finished;
    OrderLength(order, s.ids);
    Pow256Values();
    forall i | 0 <= i < |order| ensures s.ids[order[i]] < U32 && |order[i]| < U16 && utf8(order[i]) {
      IdsBounded(utf8, s, order[i]);
    }
    var after := EntriesBytes(s.ids, order) + rest;
    assert SectionBytes(s.ids, order) + rest == ToLE(|s.ids|, 4) + after;
    ReadsBack(|s.ids|, 4, after);
    EntriesReadBack(utf8, s.ids, order, rest, NOTHING);
    AllAdded(utf8, s, order);
  }

  /** A decoded name is never longer than its length field can say. */
  lemma {:induction false} DecodedFit(utf8: Name -> bool, bs: Bytes, count: nat, d: Decoding)
    requires NamesFit(d.ids)
    ensures var r := DecodeEntries(utf8, bs, count, d); r.Some? ==> NamesFit(r.value.0.ids)
    decreases count
  {
    if count > 0 {
      var e := DecodeEntry(utf8, bs);
      if e.Some? {
        EntryFits(utf8, bs);
        DecodedFit(utf8, e.value.2, count - 1, Add(d, e.value.0, e.value.1));
      }
    }
  }

  lemma EntryFits(utf8: Name -> bool, bs: Bytes)
    requires DecodeEntry(utf8, bs).Some?
    ensures |DecodeEntry(utf8, bs).value.1| < U16
  {
    Pow256Values();
  }

  // ---------------------------------------------------------------- the whole catalog

  /** Labels, relationship types and property keys. */
  datatype Snapshot = Snapshot(labels: Section, relTypes: Section, propertyKeys: Section)

  ghost predicate CatalogInv(utf8: Name -> bool, c: Snapshot) {
    Inv(utf8, c.labels) && Inv(utf8, c.relTypes) && Inv(utf8, c.propertyKeys)
  }

  ghost predicate AllNamesFit(c: Snapshot) {
    NamesFit(c.labels.ids) && NamesFit(c.relTypes.ids) && NamesFit(c.propertyKeys.ids)
  }

  /** The orders the three maps are gone through in. */
  datatype Orders = Orders(labels: seq<Name>, relTypes: seq<Name>, propertyKeys: seq<Name>)

  ghost predicate EnumeratesAll(o: Orders, c: Snapshot) {
    Enumerates(o.labels, c.labels.ids) && Enumerates(o.relTypes, c.relTypes.ids) && Enumerates(o.propertyKeys, c.propertyKeys.ids)
  }

  ghost function Encoded(c: Snapshot, o: Orders): Bytes
    requires EnumeratesAll(o, c)
  {
    SectionBytes(c.labels.ids, o.labels) + SectionBytes(c.relTypes.ids, o.relTypes) + SectionBytes(c.propertyKeys.ids, o.propertyKeys)
  }

  function Decode(utf8: Name -> bool, bs: Bytes): Option<Snapshot> {
    match DecodeSection(utf8, bs)
    case None => None
    case Some((labels, r1)) =>
      match DecodeSection(utf8, r1)
      case None => None
      case Some((relTypes, r2)) =>
        match DecodeSection(utf8, r2)
        case None => None
        case Some((propertyKeys, _)) => Some(Snapshot(labels, relTypes, propertyKeys))
  }

  /** Decoding undoes encoding exactly if every name fits its 16-bit length. */
  lemma CatalogRoundTrip(utf8: Name -> bool, c: Snapshot, o: Orders)
    requires CatalogInv(utf8, c) && EnumeratesAll(o, c)
    ensures Decode(utf8, Encoded(c, o)) == Some(c) <==> AllNamesFit(c)
  {
    hide DecodeSection, SectionBytes, Inv, NamesFit;
    if AllNamesFit(c) {
      var b1, b2, b3 := SectionBytes(c.labels.ids, o.labels), SectionBytes(c.relTypes.ids, o.relTypes),
                        SectionBytes(c.propertyKeys.ids, o.propertyKeys);
      assert Encoded(c, o) == b1 + (b2 + (b3 + []));
      SectionReadsBack(utf8, c.labels, o.labels, b2 + (b3 + []));
      SectionReadsBack(utf8, c.relTypes, o.relTypes, b3 + []);
      SectionReadsBack(utf8, c.propertyKeys, o.propertyKeys, []);
    } else {
      DecodeFits(utf8, Encoded(c, o));
    }
  }

  lemma DecodeFits(utf8: Name -> bool, bs: Bytes)
    ensures Decode(utf8, bs).Some? ==> AllNamesFit(Decode(utf8, bs).value)
  {
    hide DecodeEntries;
    SectionFits(utf8, bs);
    var s1 := DecodeSection(utf8, bs);
    if s1.Some? {
      SectionFits(utf8, s1.value.1);
      var s2 := DecodeSection(utf8, s1.value.1);
      if s2.Some? {
        SectionFits(utf8, s2.value.1);
      }
    }
  }

  lemma SectionFits(utf8: Name -> bool, bs: Bytes)
    ensures DecodeSection(utf8, bs).Some? ==> NamesFit(DecodeSection(utf8, bs).value.0.ids)
  {
    if |bs| >= 4 {
      DecodedFit(utf8, bs[4..], FromLE(bs[..4]), NOTHING);
    }
  }

  // ---------------------------------------------------------------- the framed file

  type Checksum = Bytes -> nat

  function Framed(crc: Checksum, body: Bytes): Bytes {
    ToLE(CATALOG_MAGIC, 8) + ToLE(crc(body) % U32, 4) + ToLE(|body| % U32, 4) + body
  }

  function Unframe(utf8: Name -> bool, crc: Checksum, bs: Bytes): Option<Snapshot> {
    if |bs| < CATALOG_HEADER_LEN then None
    else if FromLE(bs[0..8]) != CATALOG_MAGIC then None
    else
      var sum, len := FromLE(bs[8..12]), FromLE(bs[12..16]);
      if |bs| < CATALOG_HEADER_LEN + len then None
      else
        var body := bs[CATALOG_HEADER_LEN..CATALOG_HEADER_LEN + len];
        if crc(body) % U32 != sum then None else Decode(utf8, body)
  }

  lemma FramedParts(crc: Checksum, body: Bytes)
    requires |body| < U32
    ensures var bs := Framed(crc, body);
            && |bs| == CATALOG_HEADER_LEN + |body| && FromLE(bs[0..8]) == CATALOG_MAGIC && FromLE(bs[8..12]) == crc(body) % U32
            && FromLE(bs[12..16]) == |body| && bs[16..] == body
  {
    hide ToLE, FromLE;
    Pow256Values();
    LERoundTrip(CATALOG_MAGIC, 8);
    LERoundTrip(crc(body) % U32, 4);
    LERoundTrip(|body|, 4);
    var bs := Framed(crc, body);
    assert bs[0..8] == ToLE(CATALOG_MAGIC, 8);
    assert bs[8..12] == ToLE(crc(body) % U32, 4);
    assert bs[12..16] == ToLE(|body|, 4);
  }

  /** Unframing undoes framing. */
  lemma FrameRoundTrip(utf8: Name -> bool, crc: Checksum, c: Snapshot, o: Orders)
    requires CatalogInv(utf8, c) && EnumeratesAll(o, c) && AllNamesFit(c) && |Encoded(c, o)| < U32
    ensures Unframe(utf8, crc, Framed(crc, Encoded(c, o))) == Some(c)
  {
    hide Decode, Encoded, FromLE, Framed;
    var body := Encoded(c, o);
    FramedParts(crc, body);
    CatalogRoundTrip(utf8, c, o);
    var bs := Framed(crc, body);
    assert bs[16..16 + |body|] == bs[16..];
  }

  /** A frame that is cut short anywhere is rejected. */
  lemma PrefixRejected(utf8: Name -> bool, crc: Checksum, body: Bytes, k: nat)
    requires |body| < U32 && k < |Framed(crc, body)|
    ensures Unframe(utf8, crc, Framed(crc, body)[..k]) == None
  {
    hide Decode, FromLE, Framed;
    FramedParts(crc, body);
    var bs := Framed(crc, body);
    if k >= CATALOG_HEADER_LEN {
      assert bs[..k][12..16] == bs[12..16];
    }
  }

  /** Bytes of one length that stand for the same number are the same. */
  lemma {:induction false} LEInjective(a: Bytes, b: Bytes)
    requires |a| == |b| && FromLE(a) == FromLE(b)
    ensures a == b
    decreases |a|
  {
    if a != [] {
      assert a[0] + 256 * FromLE(a[1..]) == b[0] + 256 * FromLE(b[1..]);
      LEInjective(a[1..], b[1..]);
      assert a == [a[0]] + a[1..] && b == [b[0]] + b[1..];
    }
  }

  /** And so is a frame whose magic number or checksum has been overwritten, however little, or
      whose body has been overwritten with bytes of another checksum. */
  lemma DamageRejected(utf8: Name -> bool, crc: Checksum, body: Bytes, bs: Bytes)
    requires |body| < U32 && |bs| == |Framed(crc, body)| && bs != Framed(crc, body)
    requires bs[12..16] == Framed(crc, body)[12..16]
    requires bs[16..] == body || (bs[8..12] == Framed(crc, body)[8..12] && crc(bs[16..]) % U32 != crc(body) % U32)
    ensures Unframe(utf8, crc, bs) == None
  {
    hide Decode, FromLE, Framed;
    FramedParts(crc, body);
    var fr := Framed(crc, body);
    assert bs[16..16 + |body|] == bs[16..];
    assert bs == bs[0..8] + bs[8..12] + bs[12..16] + bs[16..];
    assert fr == fr[0..8] + fr[8..12] + fr[12..16] + fr[16..];
    if bs[16..] == body && FromLE(bs[0..8]) == CATALOG_MAGIC && FromLE(bs[8..12]) == crc(body) % U32 {
      LEInjective(bs[0..8], fr[0..8]);
      LEInjective(bs[8..12], fr[8..12]);
    }
  }

  // ---------------------------------------------------------------- as the source runs it

  lemma {:induction false} EntriesBytesAppend(ids: map<Name, nat>, order: seq<Name>, name: Name)
    requires (forall i | 0 <= i < |order| :: order[i] in ids) && name in ids
    ensures EntriesBytes(ids, order + [name]) == EntriesBytes(ids, order) + EntryBytes(ids[name], name)
  {
    hide EntryBytes;
    if order == [] {
      assert order + [name] == [name];
    } else {
      assert (order + [name])[1..] == order[1..] + [name];
      EntriesBytesAppend(ids, order[1..], name);
    }
  }

  /** The bytes of a section in some order. */
  ghost predicate EncodesSection(ids: map<Name, nat>, buf: Bytes) {
    exists order :: Enumerates(order, ids) && buf == SectionBytes(ids, order)
  }

  /** `encode_section`: the map is gone through in whatever order it comes. */
  method EncodeSection(ids: map<Name, nat>) returns (buf: Bytes)
    ensures EncodesSection(ids, buf)
  {
    hide ToLE, EntryBytes;
    buf := ToLE(|ids| % U32, 4);
    ghost var order: seq<Name> := [];
    assert buf == SectionBytes(ids, []);
    var left := ids.Keys;
    while left != {}
      invariant left <= ids.Keys
      invariant forall i | 0 <= i < |order| :: order[i] in ids && order[i] !in left
      invariant forall i, j | 0 <= i < j < |order| :: order[i] != order[j]
      invariant forall n | n in ids :: n in left || n in order
      invariant buf == SectionBytes(ids, order)
      decreases |left|
    {
      var name :| name in left;
      left := left - {name};
      EntriesBytesAppend(ids, order, name);
      buf := buf + EntryBytes(ids[name], name);
      order := order + [name];
    }
  }

  /** `read_u32_le` and `read_u16_le` */
  method ReadAt(bytes: Bytes, pos: nat, k: nat) returns (n: Option<nat>, pos': nat)
    requires pos <= |bytes|
    ensures pos <= pos' <= |bytes|
    ensures match ReadLE(bytes[pos..], k) case None => n.None? case Some((v, rest)) => n == Some(v) && rest == bytes[pos'..]
  {
    if pos + k > |bytes| {
      return None, pos;
    }
    assert bytes[pos..][..k] == bytes[pos..pos + k] && bytes[pos..][k..] == bytes[pos + k..];
    n, pos' := Some(FromLE(bytes[pos..pos + k])), pos + k;
  }

  method DecodeEntryAt(utf8: Name -> bool, bytes: Bytes, pos: nat) returns (e: Option<(nat, Name)>, pos': nat)
    requires pos <= |bytes|
    ensures pos' <= |bytes|
    ensures match DecodeEntry(utf8, bytes[pos..])
            case None => e.None?
            case Some((id, name, rest)) => e == Some((id, name)) && rest == bytes[pos'..]
  {
    hide ReadLE;
    var id, len;
    id, pos' := ReadAt(bytes, pos, 4);
    if id.None? {
      return None, pos';
    }
    len, pos' := ReadAt(bytes, pos', 2);
    if len.None? || pos' + len.value > |bytes| {
      return None, pos';
    }
    var name := bytes[pos'..pos' + len.value];
    assert bytes[pos'..][..len.value] == name && bytes[pos'..][len.value..] == bytes[pos' + len.value..];
    if !utf8(name) {
      return None, pos';
    }
    e, pos' := Some((id.value, name)), pos' + len.value;
  }

  /** `decode_section` */
  method DecodeSectionAt(utf8: Name -> bool, bytes: Bytes, pos: nat) returns (s: Option<Section>, pos': nat)
    requires pos <= |bytes|
    ensures pos' <= |bytes|
    ensures match DecodeSection(utf8, bytes[pos..])
            case None => s.None?
            case Some((section, rest)) => s == Some(section) && rest == bytes[pos'..]
  {
    hide ReadLE, DecodeEntry;
    var count;
    count, pos' := ReadAt(bytes, pos, 4);
    if count.None? {
      return None, pos';
    }
    var d := NOTHING;
    ghost var whole := DecodeEntries(utf8, bytes[pos'..], count.value, NOTHING);
    for i := 0 to count.value
      invariant pos' <= |bytes|
      invariant DecodeEntries(utf8, bytes[pos'..], count.value - i, d) == whole
    {
      var e;
      e, pos' := DecodeEntryAt(utf8, bytes, pos');
      if e.None? {
        return None, pos';
      }
      d := Add(d, e.value.0, e.value.1);
    }
    s := Some(Finished(d));
  }

  method DecodeBytes(utf8: Name -> bool, bytes: Bytes) returns (c: Option<Snapshot>)
    ensures c == Decode(utf8, bytes)
  {
    hide DecodeSection;
    var labels, relTypes, propertyKeys;
    var pos: nat := 0;
    assert bytes[0..] == bytes;
    labels, pos := DecodeSectionAt(utf8, bytes, pos);
    if labels.None? {
      return None;
    }
    relTypes, pos := DecodeSectionAt(utf8, bytes, pos);
    if relTypes.None? {
      return None;
    }
    propertyKeys, pos := DecodeSectionAt(utf8, bytes, pos);
    if propertyKeys.None? {
      return None;
    }
    c := Some(Snapshot(labels.value, relTypes.value, propertyKeys.value));
  }

  /** The bytes of a catalog, each of its maps gone through in some order. */
  ghost predicate Encodes(c: Snapshot, buf: Bytes) {
    exists o :: EnumeratesAll(o, c) && buf == Encoded(c, o)
  }

  lemma EncodesInTurn(c: Snapshot, a: Bytes, b: Bytes, d: Bytes)
    requires EncodesSection(c.labels.ids, a) && EncodesSection(c.relTypes.ids, b) && EncodesSection(c.propertyKeys.ids, d)
    ensures Encodes(c, a + b + d)
  {
    hide SectionBytes;
    var x :| Enumerates(x, c.labels.ids) && a == SectionBytes(c.labels.ids, x);
    var y :| Enumerates(y, c.relTypes.ids) && b == SectionBytes(c.relTypes.ids, y);
    var z :| Enumerates(z, c.propertyKeys.ids) && d == SectionBytes(c.propertyKeys.ids, z);
    assert EnumeratesAll(Orders(x, y, z), c);
  }

  class SchemaCatalog {
    const utf8: Name -> bool
    var labels: Section
    var relTypes: Section
    var propertyKeys: Section

    function Value(): Snapshot
      reads this
    {
      Snapshot(labels, relTypes, propertyKeys)
    }

    ghost predicate Valid()
      reads this
    {
      CatalogInv(utf8, Value())
    }

    constructor (utf8: Name -> bool)
      ensures Valid() && this.utf8 == utf8 && Value() == Snapshot(EMPTY, EMPTY, EMPTY)
    {
      this.utf8 := utf8;
      labels, relTypes, propertyKeys := EMPTY, EMPTY, EMPTY;
      EmptyInv(utf8);
    }

    /** `get_or_create_label`: a name keeps its id, a new one gets the next. */
    method GetOrCreateLabel(name: Name) returns (id: nat)
      requires Valid() && utf8(name) && (name !in labels.ids ==> labels.next + 1 < U32)
      modifies this`labels
      ensures Valid() && labels == Register(old(labels), name) && HasId(labels, name, id) && HasName(labels, name, id)
      ensures id == if name in old(labels).ids then old(labels).ids[name] else old(labels).next
    {
      hide Inv;
      RegisterKeeps(utf8, labels, name);
      labels := Register(labels, name);
      id := labels.ids[name];
      IdsBounded(utf8, labels, name);
    }

    method GetOrCreateRelType(name: Name) returns (id: nat)
      requires Valid() && utf8(name) && (name !in relTypes.ids ==> relTypes.next + 1 < U32)
      modifies this`relTypes
      ensures Valid() && relTypes == Register(old(relTypes), name) && HasId(relTypes, name, id) && HasName(relTypes, name, id)
      ensures id == if name in old(relTypes).ids then old(relTypes).ids[name] else old(relTypes).next
    {
      hide Inv;
      RegisterKeeps(utf8, relTypes, name);
      relTypes := Register(relTypes, name);
      id := relTypes.ids[name];
      IdsBounded(utf8, relTypes, name);
    }

    method GetOrCreatePropertyKey(name: Name) returns (id: nat)
      requires Valid() && utf8(name) && (name !in propertyKeys.ids ==> propertyKeys.next + 1 < U32)
      modifies this`propertyKeys
      ensures Valid() && propertyKeys == Register(old(propertyKeys), name)
      ensures HasId(propertyKeys, name, id) && HasName(propertyKeys, name, id)
      ensures id == if name in old(propertyKeys).ids then old(propertyKeys).ids[name] else old(propertyKeys).next
    {
      hide Inv;
      RegisterKeeps(utf8, propertyKeys, name);
      propertyKeys := Register(propertyKeys, name);
      id := propertyKeys.ids[name];
      IdsBounded(utf8, propertyKeys, name);
    }

    method Encode() returns (buf: Bytes)
      ensures Encodes(Value(), buf)
    {
      hide SectionBytes, Enumerates;
      buf := EncodeSection(labels.ids);
      var types := EncodeSection(relTypes.ids);
      var keys := EncodeSection(propertyKeys.ids);
      EncodesInTurn(Value(), buf, types, keys);
      buf := buf + types + keys;
    }

    /** Written out framed, the catalog is read back as it is. */
    method Frame(crc: Checksum) returns (bs: Bytes)
      requires Valid()
      ensures AllNamesFit(Value()) && |bs| < U32 + CATALOG_HEADER_LEN ==> Unframe(utf8, crc, bs) == Some(Value())
    {
      hide Inv, Encoded, Unframe, NamesFit, Enumerates;
      var body := Encode();
      bs := Framed(crc, body);
      if AllNamesFit(Value()) && |body| < U32 {
        ghost var o :| EnumeratesAll(o, Value()) && body == Encoded(Value(), o);
        FrameRoundTrip(utf8, crc, Value(), o);
      }
    }
  }
}
