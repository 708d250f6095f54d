/**
 Identifiers of objects: the numbered ones, and the 62-bit ones written as six and ten hexadecimal digits.
 Shifts and masks are written as division and remainder.
 */
module ObjectIds {

  import opened Prelude
  import opened MooText
  import opened Numerals

  // 16 bits of counter, 6 random bits, 40 bits of time; every part cut to its width.
  function Pack(auto: nat, rng: nat, epoch: nat): (packed: nat)
    ensures packed < 0x4000_0000_0000_0000
  {
    ((auto % 0x1_0000) * 0x40 + rng % 0x40) * 0x100_0000_0000 + epoch % 0x100_0000_0000
  }

  function FirstGroup(packed: nat): (first: nat)
    ensures first < 0x40_0000
  {
    (packed / 0x4000_0000_0000 % 0x1_0000) * 0x40 + (packed / 0x100_0000_0000) % 0x40
  }

  function PrintUuid(packed: nat): (text: string)
    ensures |text| == 17 && text[6] == '-'
  {
    Written(FirstGroup(packed), packed % 0x100_0000_0000)
  }

  // Two groups, with a dash between them.
  function Written(first: nat, epoch: nat): (text: string)
    ensures |text| == 17 && text[..6] == PrintHex(first, 6) && text[6] == '-' && text[7..] == PrintHex(epoch, 10)
  {
    PrintHex(first, 6) + "-" + PrintHex(epoch, 10)
  }

  // What the client reads: the parts are not cut to their width.
  function ClientPack(first: nat, epoch: nat): nat {
    (first / 0x40) * 0x4000_0000_0000 + (first % 0x40) * 0x100_0000_0000 + epoch
  }

  predicate IsUuidText(text: string) {
    |text| == 17 && text[6] == '-' && AllHex(text[..6]) && AllHex(text[7..])
  }

  function ParseUuObjId(text: string): Option<nat> {
    if IsUuidText(text) then Some(ClientPack(ReadHex(text[..6]), ReadHex(text[7..]))) else None
  }

  // What the server reads: two groups of hexadecimal digits, each at most 64 bits. A group may have a plus sign.
  function ReadU64Hex(text: string): Option<nat> {
    var digits := if At(text, 0, '+') then text[1..] else text;
    if digits == "" || !AllHex(digits) || ReadHex(digits) >= 0x1_0000_0000_0000_0000 then None else Some(ReadHex(digits))
  }

  lemma PlainHex(text: string)
    requires text != "" && AllHex(text) && ReadHex(text) < 0x1_0000_0000_0000_0000
    ensures ReadU64Hex(text) == Some(ReadHex(text))
  {
    assert IsHex(text[0]);
  }

  function FromUuidString(text: string): Option<nat> {
    var cut := SkipWhile(text, 0, NotDash);
    if cut == |text| || '-' in text[cut + 1..] then None
    else
      var first, epoch := ReadU64Hex(text[..cut]), ReadU64Hex(text[cut + 1..]);
      if first.None? || epoch.None? then None
      else Some(Pack(first.value / 0x40, first.value, epoch.value))
  }

  predicate NotDash(c: char) { c != '-' }

  // ---------------------------------------------------------------- round trips

  lemma FirstGroupIsQuotient(packed: nat)
    requires packed < 0x4000_0000_0000_0000
    ensures FirstGroup(packed) == packed / 0x100_0000_0000
  {
    var q := packed / 0x100_0000_0000;
    assert packed / 0x4000_0000_0000 == q / 0x40;
    assert q < 0x40_0000;
  }

  lemma PrintedGroups(packed: nat)
    ensures var text := PrintUuid(packed);
      && text[..6] == PrintHex(FirstGroup(packed), 6) && text[7..] == PrintHex(packed % 0x100_0000_0000, 10)
      && IsUuidText(text)
      && ReadHex(text[..6]) == FirstGroup(packed) && ReadHex(text[7..]) == packed % 0x100_0000_0000
  {
    var text := PrintUuid(packed);
    assert text[..6] == PrintHex(FirstGroup(packed), 6);
    assert text[7..] == PrintHex(packed % 0x100_0000_0000, 10);
    Powers();
    HexReadsBack(FirstGroup(packed), 6);
    HexReadsBack(packed % 0x100_0000_0000, 10);
  }

  lemma Powers()
    ensures Pow16(6) == 0x100_0000 && Pow16(10) == 0x100_0000_0000
  {
    assert Pow16(3) == 0x1000;
    assert Pow16(6) == 0x100_0000;
    assert Pow16(8) == 0x1_0000_0000;
  }

  // The client reads back every identifier it prints.
  lemma UuidReadsBack(packed: nat)
    requires packed < 0x4000_0000_0000_0000
    ensures ParseUuObjId(PrintUuid(packed)) == Some(packed)
  {
    hide ReadHex, FirstGroup, PrintUuid, ClientPack;
    PrintedGroups(packed);
    FirstGroupIsQuotient(packed);
    RegroupFirst(packed / 0x100_0000_0000, packed % 0x100_0000_0000);
  }

  lemma RegroupFirst(first: nat, epoch: nat)
    ensures ClientPack(first, epoch) == first * 0x100_0000_0000 + epoch
  {
    assert first == first / 0x40 * 0x40 + first % 0x40;
  }

  // And so does the server, which cuts nothing off.
  lemma ServerReadsBack(packed: nat)
    requires packed < 0x4000_0000_0000_0000
    ensures FromUuidString(PrintUuid(packed)) == Some(packed)
  {
    hide Pack, FirstGroup, ReadHex, ReadU64Hex;
    var text := PrintUuid(packed);
    PrintedGroups(packed);
    DashAtSix(text);
    FirstGroupIsQuotient(packed);
    PlainHex(text[..6]);
    PlainHex(text[7..]);
    PackIsSum(packed / 0x100_0000_0000, packed % 0x100_0000_0000);
  }

  lemma PackIsSum(first: nat, epoch: nat)
    requires first < 0x40_0000 && epoch < 0x100_0000_0000
    ensures Pack(first / 0x40, first, epoch) == first * 0x100_0000_0000 + epoch
  {
    assert first / 0x40 < 0x1_0000;
  }

  lemma DashAtSix(text: string)
    requires IsUuidText(text)
    ensures SkipWhile(text, 0, NotDash) == 6 && '-' !in text[7..]
  {
    assert forall i :: 0 <= i < 6 ==> text[i] == text[..6][i];
  }

  lemma Regrouped(first: nat, epoch: nat)
    requires epoch < 0x100_0000_0000
    ensures FirstGroup(ClientPack(first, epoch)) == first % 0x40_0000
    ensures ClientPack(first, epoch) % 0x100_0000_0000 == epoch
  {
    RegroupFirst(first, epoch);
    var packed := first * 0x100_0000_0000 + epoch;
    assert packed / 0x100_0000_0000 == first;
    assert packed / 0x4000_0000_0000 == first / 0x40;
    assert first % 0x40_0000 == (first / 0x40 % 0x1_0000) * 0x40 + first % 0x40;
  }

  // Printing an identifier the client read keeps 22 bits of its first group.
  lemma PrintsGroups(text: string)
    requires IsUuidText(text)
    ensures PrintUuid(ParseUuObjId(text).value) == Written(ReadHex(text[..6]) % 0x40_0000, ReadHex(text[7..]))
  {
    Powers();
    Regrouped(ReadHex(text[..6]), ReadHex(text[7..]));
  }

  lemma WrittenApart(a: nat, b: nat, epoch: nat)
    requires a < Pow16(6) && b < Pow16(6)
    ensures Written(a, epoch) == Written(b, epoch) <==> a == b
  {
    HexPrintsApart(a, b, 6);
  }

  lemma WrittenBack(text: string)
    requires IsUuidText(text)
    ensures Written(ReadHex(text[..6]), ReadHex(text[7..])) == Uppered(text[..6]) + "-" + Uppered(text[7..])
  {
    HexPrintsBack(text[..6]);
    HexPrintsBack(text[7..]);
  }

  // It gives the text back, in upper case, exactly when the first group has no more than 22 bits.
  lemma UuidPrintsBackExactly(text: string)
    requires IsUuidText(text)
    ensures PrintUuid(ParseUuObjId(text).value) == Uppered(text[..6]) + "-" + Uppered(text[7..])
       <==> ReadHex(text[..6]) < 0x40_0000
  {
    hide ReadHex, PrintUuid, ParseUuObjId, Written, Uppered, Pow16;
    var first, epoch := ReadHex(text[..6]), ReadHex(text[7..]);
    PrintsGroups(text);
    WrittenBack(text);
    FirstGroupFits(text);
    WrittenApart(first % 0x40_0000, first, epoch);
    CutIsSame(first);
  }

  lemma CutIsSame(first: nat)
    ensures first % 0x40_0000 == first <==> first < 0x40_0000
  {
  }

  lemma FirstGroupFits(text: string)
    requires IsUuidText(text)
    ensures ReadHex(text[..6]) < Pow16(6) && ReadHex(text[..6]) % 0x40_0000 < Pow16(6)
  {
    hide ReadHex;
    Powers();
  }

  // A wider first group prints as another identifier.
  lemma WideGroupLosesBits(first: nat, epoch: nat)
    requires 0x40_0000 <= first < 0x100_0000 && epoch < 0x100_0000_0000
    ensures var text := Written(first, epoch);
      IsUuidText(text) && PrintUuid(ParseUuObjId(text).value) == Written(first % 0x40_0000, epoch) != text
  {
    Powers();
    HexReadsBack(first, 6);
    HexReadsBack(epoch, 10);
    PrintsGroups(Written(first, epoch));
    WrittenApart(first % 0x40_0000, first, epoch);
  }

}
