/**
 The fingerprint of the builtins a program calls: for each id in order, the id, the two names and the two flags,
 written so that the stream can be read back, then hashed.
 */
module Fingerprint {

  import opened Prelude
  import opened Fnv

  // What the fingerprint covers of a builtin.
  datatype Builtin = Builtin(name: seq<Byte>, overrideName: seq<Byte>, implemented: bool, exposed: bool)

  type Id = i: nat | i < 0x1_0000

  datatype Entry = Entry(id: Id, builtin: Builtin)

  // ---------------------------------------------------------------- the stream

  // Little-endian, `width` bytes.
  function Le(n: nat, width: nat): (bytes: seq<Byte>)
    ensures |bytes| == width
    decreases width
  {
    if width == 0 then [] else [n % 0x100] + Le(n / 0x100, width - 1)
  }

  function Flag(b: bool): seq<Byte> {
    if b then [1] else [0]
  }

  function WriteString(text: seq<Byte>): seq<Byte> {
    Le(|text|, 8) + text
  }

  function Write(e: Entry): seq<Byte> {
    Le(e.id, 2) + (WriteString(e.builtin.name) + (WriteString(e.builtin.overrideName)
      + (Flag(e.builtin.implemented) + Flag(e.builtin.exposed))))
  }

  function Stream(entries: seq<Entry>): seq<Byte> {
    if entries == [] then [] else Write(entries[0]) + Stream(entries[1..])
  }

  // ---------------------------------------------------------------- reading it back

  function ReadLe(bytes: seq<Byte>): nat {
    if bytes == [] then 0 else bytes[0] + 0x100 * ReadLe(bytes[1..])
  }

  function Pow256(k: nat): (n: nat)
    ensures n > 0
  {
    if k == 0 then 1 else 0x100 * Pow256(k - 1)
  }

  lemma {:induction false} LeReadsBack(n: nat, width: nat)
    requires n < Pow256(width)
    ensures ReadLe(Le(n, width)) == n
    decreases width
  {
    if width > 0 { LeReadsBack(n / 0x100, width - 1); }
  }

  // Texts fit their length field.
  predicate Fits(b: Builtin) {
    |b.name| < Pow256(8) && |b.overrideName| < Pow256(8)
  }

  // A text and what follows it.
  function ReadString(bytes: seq<Byte>): Option<(seq<Byte>, seq<Byte>)> {
    if |bytes| < 8 then None
    else
      var n := ReadLe(bytes[..8]);
      if |bytes| < 8 + n then None else Some((bytes[8..8 + n], bytes[8 + n..]))
  }

  lemma StringReadsBack(text: seq<Byte>, rest: seq<Byte>)
    requires |text| < Pow256(8)
    ensures ReadString(WriteString(text) + rest) == Some((text, rest))
  {
    hide Pow256;
    var bytes := WriteString(text) + rest;
    LeReadsBack(|text|, 8);
    assert bytes[..8] == Le(|text|, 8);
    assert bytes[8..8 + |text|] == text;
    assert bytes[8 + |text|..] == rest;
  }

  // Two streams that start with a text start with the same text.
  lemma StringSplits(a: seq<Byte>, x: seq<Byte>, b: seq<Byte>, y: seq<Byte>)
    requires |a| < Pow256(8) && |b| < Pow256(8) && WriteString(a) + x == WriteString(b) + y
    ensures a == b && x == y
  {
    StringReadsBack(a, x);
    StringReadsBack(b, y);
  }

  lemma FixedSplits(a: seq<Byte>, x: seq<Byte>, b: seq<Byte>, y: seq<Byte>)
    requires |a| == |b| && a + x == b + y
    ensures a == b && x == y
  {
    assert (a + x)[..|a|] == a && (b + y)[..|b|] == b;
    assert (a + x)[|a|..] == x && (b + y)[|b|..] == y;
  }

  // The stream says where each entry ends, so different entries are told apart.
  lemma EntrySplits(d: Entry, x: seq<Byte>, e: Entry, y: seq<Byte>)
    requires Fits(d.builtin) && Fits(e.builtin) && Write(d) + x == Write(e) + y
    ensures d == e && x == y
  {
    hide WriteString;
    hide Pow256;
    hide Le;
    var f, g := d.builtin, e.builtin;
    var fs, gs := Flag(f.implemented) + Flag(f.exposed), Flag(g.implemented) + Flag(g.exposed);
    var d3, e3 := WriteString(f.overrideName) + (fs + x), WriteString(g.overrideName) + (gs + y);
    var d2, e2 := WriteString(f.name) + d3, WriteString(g.name) + e3;
    assert Write(d) + x == Le(d.id, 2) + d2;
    assert Write(e) + y == Le(e.id, 2) + e2;
    FixedSplits(Le(d.id, 2), d2, Le(e.id, 2), e2);
    IdsApart(d.id, e.id);
    StringSplits(f.name, d3, g.name, e3);
    StringSplits(f.overrideName, fs + x, g.overrideName, gs + y);
    FixedSplits(fs, x, gs, y);
    FixedSplits(Flag(f.implemented), Flag(f.exposed), Flag(g.implemented), Flag(g.exposed));
  }

  lemma IdsApart(a: Id, b: Id)
    requires Le(a, 2) == Le(b, 2)
    ensures a == b
  {
    assert Pow256(2) == 0x1_0000;
    LeReadsBack(a, 2);
    LeReadsBack(b, 2);
  }

  lemma EntryNotEmpty(e: Entry)
    ensures Write(e) != []
  {
    hide WriteString;
    hide Flag;
  }

  predicate AllFit(entries: seq<Entry>) {
    entries == [] || (Fits(entries[0].builtin) && AllFit(entries[1..]))
  }

  // The stream determines the entries.
  lemma {:induction false} StreamDetermines(a: seq<Entry>, b: seq<Entry>)
    requires AllFit(a) && AllFit(b)
    ensures Stream(a) == Stream(b) <==> a == b
    decreases |a|
  {
    hide Write;
    hide Fits;
    if a == [] || b == [] {
      if a != [] { EntryNotEmpty(a[0]); }
      if b != [] { EntryNotEmpty(b[0]); }
    } else {
      StreamDetermines(a[1..], b[1..]);
      if Stream(a) == Stream(b) { EntrySplits(a[0], Stream(a[1..]), b[0], Stream(b[1..])); }
      assert a == [a[0]] + a[1..] && b == [b[0]] + b[1..];
    }
  }

  lemma {:induction false} StreamJoins(a: seq<Entry>, b: seq<Entry>)
    ensures Stream(a + b) == Stream(a) + Stream(b)
    decreases |a|
  {
    hide Write;
    if a == [] {
      assert a + b == b;
    } else {
      assert (a + b)[0] == a[0] && (a + b)[1..] == a[1..] + b;
      StreamJoins(a[1..], b);
    }
  }

  // ---------------------------------------------------------------- the ids in order

  function Insert(id: Id, ids: seq<Id>): seq<Id> {
    if ids == [] || id <= ids[0] then [id] + ids else [ids[0]] + Insert(id, ids[1..])
  }

  function Sort(ids: seq<Id>): seq<Id> {
    if ids == [] then [] else Insert(ids[0], Sort(ids[1..]))
  }

  predicate Sorted(ids: seq<Id>) {
    |ids| > 1 ==> ids[0] <= ids[1] && Sorted(ids[1..])
  }

  lemma {:induction false} InsertSorts(id: Id, ids: seq<Id>)
    requires Sorted(ids)
    ensures Sorted(Insert(id, ids)) && multiset(Insert(id, ids)) == multiset(ids) + multiset{id}
    ensures Insert(id, ids)[0] in multiset{id} + multiset(ids[..if ids == [] then 0 else 1])
    decreases |ids|
  {
    if ids != [] {
      assert ids == [ids[0]] + ids[1..];
      if id > ids[0] {
        InsertSorts(id, ids[1..]);
        var rest := Insert(id, ids[1..]);
        assert ([ids[0]] + rest)[1..] == rest;
        assert ids[..1] == [ids[0]];
        if |ids| > 1 { assert ids[1..][..1] == [ids[1]]; }
      } else {
        assert ([id] + ids)[1..] == ids;
      }
    } else {
      assert [id] + ids == [id];
    }
  }

  lemma HeadBag(ids: seq<Id>)
    requires ids != []
    ensures multiset(ids) == multiset(ids[1..]) + multiset{ids[0]}
  {
    assert ids == [ids[0]] + ids[1..];
  }

  lemma {:induction false} SortSorts(ids: seq<Id>)
    ensures Sorted(Sort(ids)) && multiset(Sort(ids)) == multiset(ids)
  {
    if ids != [] {
      SortSorts(ids[1..]);
      InsertSorts(ids[0], Sort(ids[1..]));
      HeadBag(ids);
    }
  }

  lemma {:induction false} FirstIsLeast(ids: seq<Id>, id: Id)
    requires Sorted(ids) && id in ids
    ensures ids[0] <= id
  {
    if id != ids[0] {
      assert id in ids[1..];
      FirstIsLeast(ids[1..], id);
    }
  }

  lemma SameHead(a: seq<Id>, b: seq<Id>)
    requires Sorted(a) && Sorted(b) && multiset(a) == multiset(b) && a != [] && b != []
    ensures a[0] == b[0]
  {
    hide Sorted;
    assert b[0] in multiset(a) && a[0] in multiset(b);
    FirstIsLeast(a, b[0]);
    FirstIsLeast(b, a[0]);
  }

  lemma TailBag(ids: seq<Id>)
    requires ids != []
    ensures multiset(ids[1..]) == multiset(ids) - multiset{ids[0]}
  {
    HeadBag(ids);
  }

  // There is one way to put a bag of ids in order.
  lemma {:induction false} SortedOnce(a: seq<Id>, b: seq<Id>)
    requires Sorted(a) && Sorted(b) && multiset(a) == multiset(b)
    ensures a == b
    decreases |a|
  {
    assert |a| == |multiset(a)| == |multiset(b)| == |b|;
    if a != [] {
      SameHead(a, b);
      TailBag(a);
      TailBag(b);
      SortedOnce(a[1..], b[1..]);
      assert a == [a[0]] + a[1..] && b == [b[0]] + b[1..];
    }
  }

  // ---------------------------------------------------------------- the fingerprint

  predicate Known(ids: seq<Id>, table: seq<Builtin>) {
    forall i :: 0 <= i < |ids| ==> ids[i] < |table|
  }

  function Entries(ids: seq<Id>, table: seq<Builtin>): (es: seq<Entry>)
    requires Known(ids, table)
    ensures |es| == |ids|
  {
    if ids == [] then [] else [Entry(ids[0], table[ids[0]])] + Entries(ids[1..], table)
  }

  lemma {:induction false} EntryAt(ids: seq<Id>, table: seq<Builtin>, i: nat)
    requires Known(ids, table) && i < |ids|
    ensures Entries(ids, table)[i] == Entry(ids[i], table[ids[i]])
  {
    if i > 0 { EntryAt(ids[1..], table, i - 1); }
  }

  lemma SortKnown(ids: seq<Id>, table: seq<Builtin>)
    requires Known(ids, table)
    ensures Known(Sort(ids), table)
  {
    SortSorts(ids);
    var sorted := Sort(ids);
    forall i | 0 <= i < |sorted| ensures sorted[i] < |table| { assert sorted[i] in multiset(ids); }
  }

  // The bytes hashed for the ids, in order.
  function Bytes(ids: seq<Id>, table: seq<Builtin>): seq<Byte>
    requires Known(ids, table)
  {
    SortKnown(ids, table);
    Stream(Entries(Sort(ids), table))
  }

  // None where the original gives up: an id the table does not have.
  function Signature(ids: seq<Id>, table: seq<Builtin>): Option<Word> {
    if Known(ids, table) then Some(Hash(OFFSET_BASIS, Bytes(ids, table))) else None
  }

  lemma KnownByMembers(a: seq<Id>, b: seq<Id>, table: seq<Builtin>)
    requires multiset(a) == multiset(b) && Known(a, table)
    ensures Known(b, table)
  {
    forall i | 0 <= i < |b| ensures b[i] < |table| { assert b[i] in multiset(a); }
  }

  // The fingerprint does not depend on the order of the ids.
  lemma SignatureIgnoresOrder(a: seq<Id>, b: seq<Id>, table: seq<Builtin>)
    requires multiset(a) == multiset(b)
    ensures Signature(a, table) == Signature(b, table)
  {
    SortSorts(a);
    SortSorts(b);
    SortedOnce(Sort(a), Sort(b));
    if Known(a, table) { KnownByMembers(a, b, table); }
    if Known(b, table) { KnownByMembers(b, a, table); }
  }

  predicate TableFits(table: seq<Builtin>) {
    forall i :: 0 <= i < |table| ==> Fits(table[i])
  }

  lemma {:induction false} EntriesFit(ids: seq<Id>, table: seq<Builtin>)
    requires Known(ids, table) && TableFits(table)
    ensures AllFit(Entries(ids, table))
  {
    hide Fits;
    if ids != [] {
      EntriesFit(ids[1..], table);
      assert Entries(ids, table)[1..] == Entries(ids[1..], table);
    }
  }

  // The bytes hashed are the same exactly when the bags of ids are, and every id means the same in both tables.
  lemma BytesDetermine(a: seq<Id>, s: seq<Builtin>, b: seq<Id>, t: seq<Builtin>)
    requires Known(a, s) && Known(b, t) && TableFits(s) && TableFits(t)
    ensures Bytes(a, s) == Bytes(b, t) <==> multiset(a) == multiset(b) && SameMeaning(a, s, t)
  {
    var x, y := Sort(a), Sort(b);
    SortKnown(a, s);
    SortKnown(b, t);
    SortSorts(a);
    SortSorts(b);
    EntriesFit(x, s);
    EntriesFit(y, t);
    StreamDetermines(Entries(x, s), Entries(y, t));
    EntriesAgree(x, s, y, t);
    if multiset(a) == multiset(b) { SortedOnce(x, y); }
    SortedMeaning(a, s, t);
  }

  predicate SameMeaning(ids: seq<Id>, s: seq<Builtin>, t: seq<Builtin>) {
    forall i :: 0 <= i < |ids| ==> ids[i] < |s| && ids[i] < |t| && s[ids[i]] == t[ids[i]]
  }

  lemma EntriesAgree(x: seq<Id>, s: seq<Builtin>, y: seq<Id>, t: seq<Builtin>)
    requires Known(x, s) && Known(y, t)
    ensures Entries(x, s) == Entries(y, t) <==> x == y && SameMeaning(x, s, t)
  {
    var d, e := Entries(x, s), Entries(y, t);
    forall i | 0 <= i < |x| ensures d[i] == Entry(x[i], s[x[i]]) { EntryAt(x, s, i); }
    forall i | 0 <= i < |y| ensures e[i] == Entry(y[i], t[y[i]]) { EntryAt(y, t, i); }
    if d == e {
      forall i | 0 <= i < |x| ensures x[i] == y[i] { assert d[i] == e[i]; }
      forall i | 0 <= i < |x| ensures x[i] < |s| && x[i] < |t| && s[x[i]] == t[x[i]] { assert d[i] == e[i]; }
    }
  }

  lemma SortedMeaning(ids: seq<Id>, s: seq<Builtin>, t: seq<Builtin>)
    ensures SameMeaning(Sort(ids), s, t) <==> SameMeaning(ids, s, t)
  {
    SortSorts(ids);
    MeaningByMembers(ids, Sort(ids), s, t);
    MeaningByMembers(Sort(ids), ids, s, t);
  }

  lemma MeaningByMembers(a: seq<Id>, b: seq<Id>, s: seq<Builtin>, t: seq<Builtin>)
    requires multiset(a) == multiset(b)
    ensures SameMeaning(a, s, t) ==> SameMeaning(b, s, t)
  {
    if SameMeaning(a, s, t) {
      forall i | 0 <= i < |b| ensures b[i] < |s| && b[i] < |t| && s[b[i]] == t[b[i]] {
        assert b[i] in multiset(a);
      }
    }
  }

  lemma OneFlagMatters(before: seq<Entry>, e: Entry, after: seq<Entry>)
    ensures var f := e.(builtin := e.builtin.(exposed := !e.builtin.exposed));
      Hash(OFFSET_BASIS, Stream(before + [e] + after)) != Hash(OFFSET_BASIS, Stream(before + [f] + after))
  {
    var f := e.(builtin := e.builtin.(exposed := !e.builtin.exposed));
    StreamOf(before, e, after);
    StreamOf(before, f, after);
    assert Front(e) == Front(f);
    OneByteMatters(OFFSET_BASIS, Stream(before) + Front(e), Flag(e.builtin.exposed)[0], Flag(f.builtin.exposed)[0], Stream(after));
  }

  // An entry's bytes but the last.
  function Front(e: Entry): seq<Byte> {
    Le(e.id, 2) + WriteString(e.builtin.name) + WriteString(e.builtin.overrideName) + Flag(e.builtin.implemented)
  }

  lemma Flatten(l: seq<Byte>, n: seq<Byte>, o: seq<Byte>, i: seq<Byte>, x: seq<Byte>)
    ensures l + (n + (o + (i + x))) == l + n + o + i + x
  {
  }

  lemma WriteIsFront(e: Entry)
    ensures Write(e) == Front(e) + [Flag(e.builtin.exposed)[0]]
  {
    hide Le;
    hide WriteString;
    var b := e.builtin;
    Flatten(Le(e.id, 2), WriteString(b.name), WriteString(b.overrideName), Flag(b.implemented), Flag(b.exposed));
    assert Flag(b.exposed) == [Flag(b.exposed)[0]];
  }

  lemma StreamOne(e: Entry)
    ensures Stream([e]) == Write(e)
  {
    hide Write;
    assert [e][1..] == [] && Write(e) + [] == Write(e);
  }

  lemma StreamOf(before: seq<Entry>, e: Entry, after: seq<Entry>)
    ensures Stream(before + [e] + after)
         == Stream(before) + Front(e) + [Flag(e.builtin.exposed)[0]] + Stream(after)
  {
    hide Stream;
    hide Write;
    hide Front;
    StreamJoins(before + [e], after);
    StreamJoins(before, [e]);
    StreamOne(e);
    WriteIsFront(e);
    var s, f, x := Stream(before), Front(e), [Flag(e.builtin.exposed)[0]];
    assert s + (f + x) == s + f + x;
  }

  // The table with builtin i exposed where it was not, or the other way round.
  function Toggled(table: seq<Builtin>, i: nat): seq<Builtin>
    requires i < |table|
  {
    table[i := table[i].(exposed := !table[i].exposed)]
  }

  lemma {:induction false} EntriesElsewhere(ids: seq<Id>, table: seq<Builtin>, i: nat)
    requires Known(ids, table) && i < |table| && i !in ids
    ensures Known(ids, Toggled(table, i)) && Entries(ids, Toggled(table, i)) == Entries(ids, table)
  {
    if ids != [] {
      assert ids[0] in ids && forall j :: 0 <= j < |ids| - 1 ==> ids[1..][j] == ids[j + 1];
      EntriesElsewhere(ids[1..], table, i);
    }
  }

  lemma EntriesCons(id: Id, ids: seq<Id>, table: seq<Builtin>)
    requires id < |table| && Known(ids, table)
    ensures Known([id] + ids, table) && Entries([id] + ids, table) == [Entry(id, table[id])] + Entries(ids, table)
  {
    assert ([id] + ids)[1..] == ids;
  }

  lemma {:induction false} EntriesJoin(a: seq<Id>, b: seq<Id>, table: seq<Builtin>)
    requires Known(a, table) && Known(b, table)
    ensures Known(a + b, table) && Entries(a + b, table) == Entries(a, table) + Entries(b, table)
  {
    if a == [] {
      assert a + b == b;
    } else {
      hide Entries;
      var id, rest := a[0], a[1..];
      EntriesJoin(rest, b, table);
      EntriesCons(id, rest, table);
      EntriesCons(id, rest + b, table);
      assert a == [id] + rest && a + b == [id] + (rest + b);
    }
  }

  // The parts of a list around an id that it holds once.
  lemma AroundOnce(ids: seq<Id>, i: Id) returns (before: seq<Id>, after: seq<Id>)
    requires multiset(ids)[i] == 1
    ensures ids == before + [i] + after && i !in before && i !in after
  {
    assert i in multiset(ids);
    var j :| 0 <= j < |ids| && ids[j] == i;
    before, after := ids[..j], ids[j + 1..];
    assert ids == before + [i] + after;
    assert multiset(ids) == multiset(before) + multiset{i} + multiset(after);
    assert multiset(before)[i] == 0 && multiset(after)[i] == 0;
  }

  lemma KnownParts(before: seq<Id>, i: Id, after: seq<Id>, table: seq<Builtin>)
    requires Known(before + [i] + after, table)
    ensures Known(before, table) && i < |table| && Known(after, table)
  {
    var ids := before + [i] + after;
    assert ids[|before|] == i;
    forall j | 0 <= j < |before| ensures before[j] < |table| { assert ids[j] == before[j]; }
    forall j | 0 <= j < |after| ensures after[j] < |table| { assert ids[|before| + 1 + j] == after[j]; }
  }

  lemma EntriesAround(before: seq<Id>, i: Id, after: seq<Id>, table: seq<Builtin>)
    requires Known(before, table) && i < |table| && Known(after, table)
    ensures Known(before + [i] + after, table)
    ensures Entries(before + [i] + after, table)
         == Entries(before, table) + [Entry(i, table[i])] + Entries(after, table)
  {
    assert Entries([i], table) == [Entry(i, table[i])] by { assert [i][1..] == []; }
    EntriesJoin(before, [i], table);
    EntriesJoin(before + [i], after, table);
  }

  // A builtin called by the program that was exposed and is no longer, or the other way round, always changes the
  // fingerprint.
  lemma ExposureMatters(ids: seq<Id>, table: seq<Builtin>, i: Id)
    requires Known(ids, table) && multiset(ids)[i] == 1
    ensures i < |table| && Signature(ids, table).Some? && Signature(ids, Toggled(table, i)).Some?
    ensures Signature(ids, table) != Signature(ids, Toggled(table, i))
  {
    hide Stream, Hash, Entries;
    SortSorts(ids);
    SortKnown(ids, table);
    var before, after := AroundOnce(Sort(ids), i);
    KnownParts(before, i, after, table);
    var toggled := Toggled(table, i);
    EntriesElsewhere(before, table, i);
    EntriesElsewhere(after, table, i);
    EntriesAround(before, i, after, table);
    EntriesAround(before, i, after, toggled);
    KnownByMembers(Sort(ids), ids, toggled);
    OneFlagMatters(Entries(before, table), Entry(i, table[i]), Entries(after, table));
  }

  // ---------------------------------------------------------------- computing it

  // The state after the first i of the ids.
  function StateAfter(ids: seq<Id>, table: seq<Builtin>, i: nat): Word
    requires i <= |ids| && Known(ids[..i], table)
  {
    Hash(OFFSET_BASIS, Stream(Entries(ids[..i], table)))
  }

  lemma StateGrows(ids: seq<Id>, table: seq<Builtin>, i: nat)
    requires i < |ids| && Known(ids[..i], table) && ids[i] < |table|
    ensures Known(ids[..i + 1], table)
    ensures StateAfter(ids, table, i + 1) == Hash(StateAfter(ids, table, i), Write(Entry(ids[i], table[ids[i]])))
  {
    hide Hash;
    hide Write;
    hide Stream;
    var longer := ids[..i + 1];
    assert Known(longer, table) by {
      forall j | 0 <= j < |longer| ensures longer[j] < |table| { assert j < i ==> longer[j] == ids[..i][j]; }
    }
    var e := Entry(ids[i], table[ids[i]]);
    EntriesGrow(ids, table, i);
    StreamJoins(Entries(ids[..i], table), [e]);
    StreamOne(e);
    HashJoins(OFFSET_BASIS, Stream(Entries(ids[..i], table)), Write(e));
  }

  method BuiltinSignature(ids: seq<Id>, table: seq<Builtin>) returns (r: Option<Word>)
    ensures r == Signature(ids, table)
  {
    hide Hash;
    hide Write;
    hide Stream;
    SortSorts(ids);
    var sorted := Sort(ids);
    var hasher := new Hasher();
    NothingHashed(sorted, table);
    for i := 0 to |sorted|
      invariant Known(sorted[..i], table)
      invariant hasher.state == StateAfter(sorted, table, i)
    {
      if sorted[i] >= |table| {
        assert sorted[i] in multiset(ids);
        return None;
      }
      StateGrows(sorted, table, i);
      hasher.Bytes(Write(Entry(sorted[i], table[sorted[i]])));
    }
    assert sorted[..|sorted|] == sorted;
    KnownByMembers(sorted, ids, table);
    r := Some(hasher.state);
  }

  lemma NothingHashed(ids: seq<Id>, table: seq<Builtin>)
    ensures Known(ids[..0], table) && StateAfter(ids, table, 0) == OFFSET_BASIS
  {
  }

  lemma {:induction false} EntriesGrow(ids: seq<Id>, table: seq<Builtin>, i: nat)
    requires i < |ids| && Known(ids[..i + 1], table)
    ensures Known(ids[..i], table)
    ensures Entries(ids[..i + 1], table) == Entries(ids[..i], table) + [Entry(ids[i], table[ids[i]])]
  {
    var longer, shorter := ids[..i + 1], ids[..i];
    assert Known(shorter, table) by {
      forall j | 0 <= j < i ensures shorter[j] < |table| { assert shorter[j] == longer[j]; }
    }
    var a, b := Entries(longer, table), Entries(shorter, table) + [Entry(ids[i], table[ids[i]])];
    forall j | 0 <= j < |a| ensures a[j] == b[j] {
      EntryAt(longer, table, j);
      if j < i { EntryAt(shorter, table, j); }
    }
  }

}
