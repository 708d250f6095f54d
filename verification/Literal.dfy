/** Values, and the literals the web client prints them as. */
module Literal {

  import opened MooText
  import opened Numerals
  import opened ObjectIds
  import opened StatementTerminator
  import JsNumbers

  datatype Value =
    | Int(n: int)
    | Bool(b: bool)
    | Str(text: string)
    | Obj(id: int)
    | Uuid(packed: nat)
    | Anonymous(packed: nat)
    | Sym(name: string)
    | List(items: seq<Value>)
    | Map(entries: seq<Entry>)

  datatype Entry = Entry(key: Value, value: Value)

  const INT_MIN: int := -0x8000_0000_0000_0000
  const INT_MAX: int := 0x7fff_ffff_ffff_ffff
  const OBJ_MIN: int := -0x8000_0000
  const OBJ_MAX: int := 0x7fff_ffff

  predicate IsIdent(name: string) {
    name != "" && IsIdentStart(name[0]) && forall i :: 0 <= i < |name| ==> IsIdentContinue(name[i])
  }

  // Values whose literal is of a form that is read: everything but anonymous objects, symbols that are not
  // identifiers, and objects outside their type.
  predicate Printable(v: Value)
    decreases v
  {
    match v
    case Int(_) => true
    case Bool(_) => true
    case Str(_) => true
    case Obj(id) => OBJ_MIN <= id <= OBJ_MAX
    case Uuid(packed) => packed < 0x4000_0000_0000_0000
    case Anonymous(_) => false
    case Sym(name) => IsIdent(name)
    case List(items) => forall i :: 0 <= i < |items| ==> Printable(items[i])
    case Map(entries) => forall i :: 0 <= i < |entries| ==> Printable(entries[i].key) && Printable(entries[i].value)
  }

  // Every integer in the value is one of 64 bits.
  predicate Fits(v: Value)
    decreases v
  {
    match v
    case Int(n) => INT_MIN <= n <= INT_MAX
    case List(items) => ItemsFit(items)
    case Map(entries) => EntriesFit(entries)
    case _ => true
  }

  predicate ItemsFit(items: seq<Value>)
    decreases items
  {
    items == [] || (Fits(items[0]) && ItemsFit(items[1..]))
  }

  predicate EntryFits(e: Entry)
    decreases e
  {
    Fits(e.key) && Fits(e.value)
  }

  predicate EntriesFit(entries: seq<Entry>)
    decreases entries
  {
    entries == [] || (EntryFits(entries[0]) && EntriesFit(entries[1..]))
  }

  // ---------------------------------------------------------------- integers as the client shows them

  // The value with its integers as the client writes them.
  function Shown(v: Value): Value
    decreases v
  {
    match v
    case Int(n) => Int(JsNumbers.Shown(n))
    case List(items) => List(ShownItems(items))
    case Map(entries) => Map(ShownEntries(entries))
    case _ => v
  }

  function ShownItems(items: seq<Value>): (r: seq<Value>)
    ensures |r| == |items| && forall i :: 0 <= i < |items| ==> r[i] == Shown(items[i])
    decreases items
  {
    if items == [] then [] else [Shown(items[0])] + ShownItems(items[1..])
  }

  function ShownEntry(e: Entry): Entry
    decreases e
  {
    Entry(Shown(e.key), Shown(e.value))
  }

  function ShownEntries(entries: seq<Entry>): (r: seq<Entry>)
    ensures |r| == |entries| && forall i :: 0 <= i < |entries| ==> r[i] == ShownEntry(entries[i])
    decreases entries
  {
    if entries == [] then [] else [ShownEntry(entries[0])] + ShownEntries(entries[1..])
  }

  // ---------------------------------------------------------------- printing

  // The literal with every number written out.
  function Print(v: Value): string
    decreases v
  {
    match v
    case Int(n) => PrintInt(n)
    case Bool(b) => if b then "true" else "false"
    case Str(text) => "\"" + EscapeMooString(text) + "\""
    case Obj(id) => "#" + PrintInt(id)
    case Uuid(packed) => "#" + PrintUuid(packed)
    case Anonymous(_) => "*anonymous*"
    case Sym(name) => if name == "" then "''" else "'" + name
    case List(items) => "{" + PrintItems(items) + "}"
    case Map(entries) => "[" + PrintEntries(entries) + "]"
  }

  function PrintItems(items: seq<Value>): string
    decreases items
  {
    if items == [] then ""
    else if |items| == 1 then Print(items[0])
    else Print(items[0]) + ", " + PrintItems(items[1..])
  }

  function PrintEntry(e: Entry): string
    decreases e
  {
    Print(e.key) + " -> " + Print(e.value)
  }

  function PrintEntries(entries: seq<Entry>): string
    decreases entries
  {
    if entries == [] then ""
    else if |entries| == 1 then PrintEntry(entries[0])
    else PrintEntry(entries[0]) + ", " + PrintEntries(entries[1..])
  }

  // ---------------------------------------------------------------- nesting

  function Max(a: nat, b: nat): nat { if a < b then b else a }

  // How many lists and maps are open at the deepest point.
  function Levels(v: Value): nat
    decreases v
  {
    match v
    case List(items) => 1 + ItemLevels(items)
    case Map(entries) => 1 + EntryLevels(entries)
    case _ => 0
  }

  function ItemLevels(items: seq<Value>): nat
    decreases items
  {
    if items == [] then 0 else Max(Levels(items[0]), ItemLevels(items[1..]))
  }

  function EntryLevel(e: Entry): nat
    decreases e
  {
    Max(Levels(e.key), Levels(e.value))
  }

  function EntryLevels(entries: seq<Entry>): nat
    decreases entries
  {
    if entries == [] then 0 else Max(EntryLevel(entries[0]), EntryLevels(entries[1..]))
  }

  // ---------------------------------------------------------------- the printer

  // A list of printed parts, with ", " between them.
  function Joined(parts: seq<string>): string {
    if parts == [] then ""
    else if |parts| == 1 then parts[0]
    else parts[0] + ", " + Joined(parts[1..])
  }

  function ItemParts(items: seq<Value>): (parts: seq<string>)
    ensures |parts| == |items|
  {
    if items == [] then [] else [Print(items[0])] + ItemParts(items[1..])
  }

  function EntryParts(entries: seq<Entry>): (parts: seq<string>)
    ensures |parts| == |entries|
  {
    if entries == [] then [] else [PrintEntry(entries[0])] + EntryParts(entries[1..])
  }

  lemma {:induction false} JoinedItems(items: seq<Value>)
    ensures Joined(ItemParts(items)) == PrintItems(items)
  {
    if items != [] { JoinedItems(items[1..]); }
  }

  lemma {:induction false} JoinedEntries(entries: seq<Entry>)
    ensures Joined(EntryParts(entries)) == PrintEntries(entries)
  {
    if entries != [] { JoinedEntries(entries[1..]); }
  }

  lemma {:induction false} ItemPartsStep(items: seq<Value>, i: nat)
    requires i < |items|
    ensures ItemParts(items[..i + 1]) == ItemParts(items[..i]) + [Print(items[i])]
  {
    var front := items[..i + 1];
    if i > 0 {
      ItemPartsStep(items[1..], i - 1);
      assert front[1..] == items[1..][..i] && items[..i][1..] == items[1..][..i - 1];
    } else {
      assert front == [items[0]] && front[1..] == [] && items[..0] == [];
    }
  }

  lemma {:induction false} EntryPartsStep(entries: seq<Entry>, i: nat)
    requires i < |entries|
    ensures EntryParts(entries[..i + 1]) == EntryParts(entries[..i]) + [PrintEntry(entries[i])]
  {
    var front := entries[..i + 1];
    if i > 0 {
      EntryPartsStep(entries[1..], i - 1);
      assert front[1..] == entries[1..][..i] && entries[..i][1..] == entries[1..][..i - 1];
    } else {
      assert front == [entries[0]] && front[1..] == [] && entries[..0] == [];
    }
  }

  method ToLiteral(v: Value) returns (text: string)
    ensures text == Print(Shown(v))
    decreases v
  {
    match v
    case Int(n) => text := PrintInt(JsNumbers.Shown(n));
    case Bool(b) => text := if b then "true" else "false";
    case Str(s) => text := "\"" + EscapeMooString(s) + "\"";
    case Obj(id) => text := "#" + PrintInt(id);
    case Uuid(packed) => text := "#" + PrintUuid(packed);
    case Anonymous(_) => text := "*anonymous*";
    case Sym(name) => text := if name == "" then "''" else "'" + name;
    case List(items) =>
      ghost var shown := ShownItems(items);
      var parts := [];
      for i := 0 to |items|
        invariant parts == ItemParts(shown[..i])
      {
        var part := ToLiteral(items[i]);
        ItemPartsStep(shown, i);
        parts := parts + [part];
      }
      assert shown[..|items|] == shown;
      JoinedItems(shown);
      text := "{" + Joined(parts) + "}";
    case Map(entries) =>
      ghost var shown := ShownEntries(entries);
      var parts := [];
      for i := 0 to |entries|
        invariant parts == EntryParts(shown[..i])
      {
        var key := ToLiteral(entries[i].key);
        var value := ToLiteral(entries[i].value);
        EntryPartsStep(shown, i);
        parts := parts + [key + " -> " + value];
      }
      assert shown[..|entries|] == shown;
      JoinedEntries(shown);
      text := "[" + Joined(parts) + "]";
  }

}
