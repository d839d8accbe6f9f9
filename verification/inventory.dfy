/**
  The archive inventory (`.steward`) as `zipModifiedSubfolders` reads it: every
  line becomes one entry, split by a two-state machine (reading the date, then
  reading the path) at the line's first space.
 */
module Inventory {
  import Split

  /** One tracked child of an archive root: its path and its recorded date text. */
  datatype InventoryEntry = InventoryEntry(path: string, date: string)

  /** The states of the line parser. */
  datatype LineState = ReadingDate | ReadingPath

  /** The entry the declarative split gives for one line. */
  function EntryOf(line: string): InventoryEntry
  {
    InventoryEntry(Split.Tail(line), Split.Head(line))
  }

  /**
    The character-by-character parser: while reading the date every non-space
    character is appended to it and the first space switches to the path; from
    then on every character, spaces included, is appended to the path.
   */
  method ParseInventoryLine(line: string) returns (entry: InventoryEntry)
    ensures entry.date == Split.Head(line)
    ensures entry.path == Split.Tail(line)
    ensures entry == EntryOf(line)
  {
    var date: string := [];
    var path: string := [];
    var state := ReadingDate;
    var i := 0;
    while i < |line|
      invariant 0 <= i <= |line|
      invariant state == ReadingDate ==>
        Split.SpaceIndex(line) >= i && date == line[..i] && path == []
      invariant state == ReadingPath ==>
        Split.SpaceIndex(line) < i && date == Split.Head(line)
        && path == line[Split.SpaceIndex(line) + 1..i]
    {
      var c := line[i];
      match state {
        case ReadingDate =>
          if c != ' ' {
            date := date + [c];
          } else {
            state := ReadingPath;
          }
        case ReadingPath =>
          path := path + [c];
      }
      i := i + 1;
    }
    entry := InventoryEntry(path, date);
  }

  /** Reads every line of the inventory file, in file order, never skipping one. */
  method ReadInventory(lines: seq<string>) returns (inventory: seq<InventoryEntry>)
    ensures |inventory| == |lines|
    ensures forall i :: 0 <= i < |lines| ==>
      inventory[i].date == Split.Head(lines[i]) && inventory[i].path == Split.Tail(lines[i])
  {
    inventory := [];
    var i := 0;
    while i < |lines|
      invariant 0 <= i <= |lines|
      invariant |inventory| == i
      invariant forall j :: 0 <= j < i ==> inventory[j] == EntryOf(lines[j])
    {
      var entry := ParseInventoryLine(lines[i]);
      inventory := inventory + [entry];
      i := i + 1;
    }
  }

  /**
    The list built by scanning the archive root: one entry per child, in
    directory order. The modification date is converted to text but never
    stored, so every date is left empty.
   */
  function ScanArchive(children: seq<string>): (scanned: seq<InventoryEntry>)
    ensures |scanned| == |children|
    ensures forall i :: 0 <= i < |children| ==>
      scanned[i].path == children[i] && scanned[i].date == []
  {
    if |children| == 0 then []
    else [InventoryEntry(children[0], [])] + ScanArchive(children[1..])
  }

  /** Parsing a written `<date> <path>` line gives the date and the path back. */
  lemma InventoryRoundTrip(date: string, path: string)
    requires ' ' !in date
    ensures EntryOf(date + " " + path) == InventoryEntry(path, date)
  {
    Split.SplitOfJoin(date, path);
  }

  /**
    A line without a space is all date and no path; in particular the empty
    line still gives an entry, with both fields empty.
   */
  lemma InventoryNoSpace(line: string)
    requires ' ' !in line
    ensures EntryOf(line) == InventoryEntry([], line)
    ensures line == [] ==> EntryOf(line) == InventoryEntry([], [])
  {
    Split.SplitReassembles(line);
  }

  /** A line with a space is exactly its date, one space, and its path. */
  lemma InventoryReassembles(line: string)
    requires ' ' in line
    ensures ' ' !in EntryOf(line).date
    ensures line == EntryOf(line).date + " " + EntryOf(line).path
  {
    Split.SplitReassembles(line);
  }
}
