# file-steward rule and inventory parsing, in Dafny

file-steward is a small rule-driven maintenance program. It reads a rule file
with one rule per line: `tempFolder <param> <path>` sweeps a temporary folder
of stale children, and `archiveFolder <path>` starts incremental archiving of a
folder whose state is kept in a `.steward` inventory file. The logic it actually
implements is in `main.cpp`, and this project models that logic:

- **Inventory-line parser** (`Inventory`). A two-state machine (reading the date,
  then reading the path) splits every `.steward` line at its first space. Each
  line read gives exactly one entry.
- **Rule-line parser** (`Rules`). A three-state machine (command, parameter,
  path) enters the parameter state only when the command read so far is
  `tempFolder`.
- **Rule construction** (`Rules`). The command text picks the rule type and the
  parameter is converted as `std::stoi` converts it (`Numbers`). An unknown
  command ends the program before any rule runs. So does a parameter that
  `std::stoi` rejects.
- **Dispatch** (`Steward`). Parsed rules run in declaration order. Each goes to
  the expiry sweep or to the archive routine.
- **Expiry** (`Expiry`). A child is removed when its age is strictly greater than
  the global 30-day constant. The per-rule maximum age is passed but ignored.

Both state machines are `while` loops that follow the source character by
character. Each is proved equal to the declarative split in `Split`: the head
is the text before the first space, and the tail is everything after it,
verbatim.

Three behaviours of the code are easy to misread, and the model follows the
code in each. The expiry threshold is the fixed constant, not the rule's
parameter. Rule fields are cut at single spaces, not at runs of white space. A
blank inventory line is kept as an entry with two empty fields, not skipped.
The merge of old and new inventories, the zipping and the inventory rewrite are
only comments in the source, so nothing models them.

## Model

| member | source | states |
|---|---|---|
| Split.SpaceIndex | main.cpp:65-69 | the point where the parser leaves the first state: no character before it is a space, and it is the first space, or the line's end when the line has none |
| Split.SplitReassembles | main.cpp:61-75 | the head never holds a space; if the line has a space, it equals head + " " + tail; if not, the whole line is the head and the tail is empty |
| Split.SplitOfJoin | main.cpp:61-75 | splitting `d + " " + p`, where `d` has no space, gives back exactly `d` and `p`, even when `p` holds more spaces |
| Numbers.Stoi | main.cpp:166 | a successful conversion always lies in the 32-bit `int` range; out-of-range values are failures, as `std::stoi` throws for them |
| Numbers.StoiOfSignedDigits | main.cpp:166 | for any leading white space, an optional `+` or `-`, a non-empty digit run and any trailing text that does not start with a digit, the result is the signed value of the digits when it lies in the `int` range and a failure otherwise; the trailing text is ignored, so `30days` and `-1` both convert |
| Numbers.StoiOfDigits | main.cpp:166 | a digit string converts to the number it denotes when that fits in an `int`, and fails (the exception) when it does not |
| Numbers.StoiOfShowNat | main.cpp:166 | reading back a number's decimal text gives the number when it is at most 2147483647, and otherwise fails |
| Numbers.StoiNeedsDigit | main.cpp:166 | text with no digit fails to convert, the empty parameter included |
| Inventory.ParseInventoryLine | main.cpp:57-80 | the two-state loop ends with the date equal to the text before the first space and the path equal to everything after it, verbatim |
| Inventory.ReadInventory | main.cpp:55-83 | the inventory holds exactly one entry per line read, in file order, and each entry is that line's split |
| Inventory.ScanArchive | main.cpp:88-100 | the scan list has one entry per child, in directory order, with the child's path and an empty date, because the date text is computed but never stored |
| Inventory.InventoryRoundTrip | main.cpp:61-75 | a written `<date> <path>` line, where the date has no space, parses back to that date and that path |
| Inventory.InventoryNoSpace | main.cpp:65-81 | a line with no space is all date and no path; the empty line still gives an entry, with both fields empty |
| Inventory.InventoryReassembles | main.cpp:61-75 | a line with a space is exactly its entry's date, one space, then its path |
| Rules.ParseRuleLine | main.cpp:126-159 | the three-state loop (`Rules.Step` is one pass of its switch) ends with the command equal to the text before the first space; after `tempFolder`, parameter and path are the split of the remainder; after any other command, the parameter is empty and the remainder is the path |
| Rules.TempFolderLineSplit | main.cpp:135-157 | `tempFolder <param> <path>`, with no space in the parameter, parses to exactly that parameter and that path |
| Rules.OtherLineSplit | main.cpp:135-157 | after any command other than `tempFolder`, everything after the first space is the path and no parameter is read |
| Rules.DoubleSpaceEmptyParam | main.cpp:149-154 | two spaces after `tempFolder` leave the parameter empty and make the rest the path |
| Rules.BuildRule | main.cpp:161-178 | `tempFolder` with a convertible parameter gives a temp-folder rule carrying the converted number; `archiveFolder` gives an archive-folder rule with parameter 0; the path is always kept; any other command is rejected with that command; `tempFolder` with a parameter that does not convert is rejected with that parameter |
| Rules.CollectRules | main.cpp:123-179 | the rule-building loop over the per-line outcomes succeeds if and only if no outcome is an error, and then returns every rule in order; otherwise it returns the first error, and every outcome before it was a rule |
| Rules.ParseRules | main.cpp:123-179 | all rules parse if and only if every line builds one, and then the rules follow file order; otherwise the error is that of the first line that fails, and every line before it built a rule |
| Expiry.IsExpired | main.cpp:38 | a child is expired if and only if its age is strictly greater than 2592000.0 seconds, whatever maximum age is passed |
| Expiry.ExpiredChildren | main.cpp:30-44 | a path is removed if and only if some child with that path is expired; no more paths are removed than there are children |
| Expiry.ExpiredChildrenAppend | main.cpp:33-43 | children are visited in folder order: sweeping one run of children after another removes the first run's expired paths, then the second's |
| Expiry.ExpiredSingle | main.cpp:36-42 | one child is removed exactly when it is expired |
| Expiry.ExpiryBoundary | main.cpp:36-38 | a child exactly 2592000 seconds old (60*60*24*30) is kept; one a second older is removed |
| Expiry.ExpiryIgnoresMaxAge | main.cpp:30-38 | the removed paths are the same whatever maximum age is passed |
| Steward.ActionFor | main.cpp:184-192 | a rule goes to the expiry sweep if and only if it is a temp-folder rule, and to the archive routine if and only if it is an archive-folder rule; the call gets the rule's path, and the sweep also gets the rule's parameter |
| Steward.ImplementRules | main.cpp:182-193 | the loop makes exactly the calls `Run` uses: one call per rule, in rule order; temp-folder rules go to the expiry sweep with their path and parameter, archive-folder rules to the archive routine with their path |
| Steward.Run | main.cpp:122-193 | the rules run if and only if every line parses, with one call per line in line order; otherwise no call is made and the error is the first bad line's |
| Steward.AbortRunsNothing | main.cpp:172-176 | a bad line after any number of valid ones, with anything after it, aborts the whole run with that line's error, so even the earlier valid rules never run |
| Steward.TwoRuleScenario | main.cpp:182-193 | `tempFolder 30 /tmp/cache` then `archiveFolder /backups/data` give exactly a sweep of `/tmp/cache` with 30, then an archive of `/backups/data` |
| Steward.UnknownCommandScenario | main.cpp:172-176 | adding the line `fooBar /x` after those two aborts with the invalid command `fooBar`, and no rule runs |

## Left out

- Directory iteration, `last_write_time` and `remove_all` are file-system I/O. The sweep is modelled over a given list of children and their ages. `ExpiredChildren` returns the paths that would be removed.
- The clock is not modelled: the conversion from file clock to system clock, `to_time_t`, and the age computation. Each child's age is a given `real`, and rounding in the source's `double` arithmetic is not modelled.
- Reading the rule file and the inventory file with `getline` is I/O. Each file is a given sequence of lines. A file that cannot be opened means zero lines.
- Console output is not modelled: the entry counts, the "Expired" lines and the invalid-command message.
- `argv[1]` access and process exit codes are process plumbing. An invalid number makes `std::stoi` throw an exception that nothing catches, and the program terminates. The model treats this like the invalid-command return: the run is aborted and no rule executes.
- Merging the inventories, zipping the modified folders and writing the inventory back are only comments in the source, so nothing models them. `ZipModifiedSubfolders` appears only as the call the dispatcher makes. The effect of that call is modelled only as far as the source goes: `ReadInventory` for the old inventory and `ScanArchive` for the new list.
- Numbers.Stoi: `std::stoi` is modelled in the C locale only. White space that depends on the locale is not modelled.
- Steward.Run: each action is a call made on the assumption that every earlier call returned. Both called routines build a `std::filesystem::directory_iterator`. On a missing path, or on the empty path that a line such as `tempFolder 30` produces, that constructor throws `filesystem_error`. Nothing catches it, so the program terminates and no later rule runs. The model does not represent call outcomes, so it does not show this early end.
- Steward.ImplementRules: the same assumption applies. A call that throws ends the loop and the run, and the model does not represent that.
