# FLSTDistributor: configuration parsing and form-list distribution

This project models the sequential core of FLSTDistributor, a game-engine plugin. The plugin reads text
rules of the form

    listPlugin | listFormId | targetPlugin | targetFormId   # optional comment

and appends each target form to the engine's form list (`BGSListForm::arrayOfForms`), skipping forms the
list already holds. All of it lives in `src/Distributor.h`. The model has six modules:

- `Text` (text.dfy): lines as byte sequences, the bytes `#`, `|` and the 0xFF end-of-input value, and
  what is assumed of `Utils::Trim`. Trim is a function parameter, and the only assumption (`IsTrim`)
  is that it keeps one contiguous run of its input.
- `Forms` (forms.dfy): engine forms as abstract identities, `FormList` as a class whose
  `arrayOfForms` is updated in place, and the two engine lookups as fields of `Engine`.
  `Utils::GetFormFromIdentifier` becomes `lookup` and `RE::fallout_cast<BGSListForm*>` becomes `asList`.
  Each returns `None` where the source gets null.
- `Tokenizer` (tokenizer.dfy): `GetNextChar` and `GetNextData` as methods over a cursor. `Scan` is the
  specification function they are proved against. `ScanShape` characterises `Scan` without recursion.
- `ConfigLine` (config_line.dfy): the per-line part of `LoadConfig`. It trims the line, skips blank and
  comment lines, reads four fields and resolves them. `Split`/`Classify` specify it; `ParseLine` is
  the imperative version. The lemmas give what the grammar guarantees: fields are clean runs of the
  line, parsing inverts `Join`, and a `#` before the third separator rejects the line.
- `ConfigMap` (config_map.dfy): `LoadConfig` and `LoadConfigs` as loops over lines and files that
  update the caller's map. They are specified by `Outcomes` (each line classified) and `Grouped`
  (the outcomes recorded in order). `TargetsFor` is the reference definition of grouping, and
  `GroupedCollects` connects the two.
- `Distribution` (distribution.dfy): the append-if-absent loop (`AddForms`, specified by
  `AppendAbsent`) and `Distribute`. `Distribute` visits the loaded lists in an arbitrary order and
  changes only their arrays. Lemmas cover prefix, membership, no new duplicates and idempotence.

A 0xFF byte inside a line does not end the line: `GetNextChar` has already advanced the cursor
past it (src/Distributor.h:11) when `GetNextData` sees the sentinel. So 0xFF ends only the current field and is consumed, and the next field starts
after it. For the first three fields it acts like a `|`; only for the last field does it act like
the end of the line. `Separators` counts it with `|` for that reason.

## Model

| member | source | states |
|---|---|---|
| `Tokenizer.GetNextChar` | src/Distributor.h:9-14 | Inside the line it returns the byte under the cursor and advances the cursor by exactly one; at or past the end it returns 0xFF and leaves the cursor alone |
| `Tokenizer.GetNextData` | src/Distributor.h:16-34 | The loop leaves the cursor where `Scan` stops and returns the trimmed bytes `Scan` accumulates |
| `Tokenizer.ScanShape` | src/Distributor.h:16-30 | From inside the line the raw field is the input run starting at the cursor, with nothing reordered or inserted. It holds no `#`, no 0xFF and no non-zero delimiter. The cursor stops at the end or on a `#` right after the field, or one past a 0xFF or delimiter byte; from past the end nothing is read and the cursor stays |
| `Tokenizer.ScanStopsFirst` | src/Distributor.h:20-27 | A scan reads no further than the first byte after its start that stops it |
| `Tokenizer.ScanBounds` | src/Distributor.h:16-30 | The cursor never moves backwards, and from inside the line it never moves past the end |
| `Tokenizer.CommentSticks` | src/Distributor.h:21-24 | After a scan stops on a `#`, any later scan with any delimiter returns nothing and leaves the cursor on the `#` |
| `Tokenizer.ScanAcross` | src/Distributor.h:20-30 | A scan across a run of non-stopping bytes accumulates that run whole and continues from just after it |
| `ConfigLine.ParseLine` | src/Distributor.h:48-94 | The per-line body of `LoadConfig` gives exactly `Classify`: skipped, which field was empty, which lookup failed, or the resolved list and target |
| `ConfigLine.SplitFieldsWellFormed` | src/Distributor.h:54-76 | The four fields of an accepted line are non-empty runs of the trimmed line. None holds `#` or 0xFF, and only the fourth may hold a bar |
| `ConfigLine.ScanTowardComment` | src/Distributor.h:20-27 | A bar-delimited scan from before a `#` stops at or before it. Either it stops on a `#`, or it stops one past a separator, leaving one fewer separator before the `#` |
| `ConfigLine.CommentBeforeThirdSeparator` | src/Distributor.h:54-76 | A `#` with fewer than three separators before it empties a later field, so the line is never accepted |
| `ConfigLine.SplitJoin` | src/Distributor.h:54-76 | Round trip: four non-empty, clean, trim-stable fields joined with bars split back into the same four fields |
| `ConfigLine.FourthFieldMayHoldBars` | src/Distributor.h:72-76 | With a trim that keeps these four fields, the line a, b, c, d, e with a bar between each pair splits into `a`, `b`, `c` and d-bar-e: the fourth field keeps its bar |
| `ConfigMap.Record` | src/Distributor.h:96-103 | Any outcome but an entry leaves the map unchanged. An entry adds its list as a key, its vector becomes the old vector (empty if absent) plus exactly the target, and other keys keep their vectors |
| `ConfigMap.LoadConfig` | src/Distributor.h:45-104 | The loop over a file's lines yields `Grouped` of the lines' outcomes. A list has an entry exactly when it had one or some line configures it. Its vector is the old one followed by the targets the lines configure for it, in line order |
| `ConfigMap.LoadConfigs` | src/Distributor.h:107-124 | Loading file after file into one empty map gives the grouping of all lines. Each list's vector is its configured targets in order, and only configured lists have entries |
| `ConfigMap.GroupedCollects` | src/Distributor.h:47-104 | Grouping agrees with the reference definition `TargetsFor`, both for which keys exist and for each key's vector |
| `ConfigMap.GroupedAppend` | src/Distributor.h:113-121 | Recording one batch of outcomes and then another gives the same map as recording them together |
| `ConfigMap.OutcomesAppend` | src/Distributor.h:113-121 | Each line is classified on its own, so the outcomes of two files read one after the other are the outcomes of each, concatenated |
| `ConfigMap.GroupedExtends` | src/Distributor.h:96-103 | Loading never removes a key, and an existing vector is a prefix of its new value |
| `ConfigMap.OutcomesWithin` | src/Distributor.h:84-88 | Every list named by an accepted line is one the engine's cast returned, so it lies in any set that holds all such lists |
| `ConfigMap.GroupedKeysWithin` | src/Distributor.h:96-103 | Recording outcomes adds no key beyond the lists they name; with `OutcomesWithin`, every key of the loaded map lies in that set |
| `Distribution.AddForms` | src/Distributor.h:131-137 | For one list, the find-then-push_back loop leaves `arrayOfForms` equal to `AppendAbsent` of its old value and the configured forms |
| `Distribution.Distribute` | src/Distributor.h:126-139 | Whatever order the lists are visited in, each list's array ends as `AppendAbsent` of its old array and the targets configured for it. Lists with no configured target are unchanged |
| `Distribution.AppendAbsentExtends` | src/Distributor.h:131-136 | The old array is a prefix of the new one. The new one holds exactly the forms of the old array and of the configured vector |
| `Distribution.AppendAbsentAddsNew` | src/Distributor.h:132-135 | Each appended form was absent from everything before it, whether it was there originally or added by an earlier duplicate entry |
| `Distribution.AppendAbsentKeepsNoDuplicates` | src/Distributor.h:131-136 | An array without duplicates stays without duplicates |
| `Distribution.AppendAbsentPresent` | src/Distributor.h:132-133 | Configured forms that are all present already leave the array unchanged |
| `Distribution.AppendAbsentIdempotent` | src/Distributor.h:131-136 | Distributing the same configured vector a second time adds nothing |

## Left out

- File and directory I/O are not modelled. That covers opening a configuration file (and the early
  return when it cannot be opened), `std::getline`, and scanning the directory with its `.*.txt`
  filter (src/Distributor.h:37-47, 109-121). A file is its sequence of lines, and `LoadConfigs` and
  `Distribute` take the matching files' lines in directory order.
- Logging is not modelled; it has no effect on the map or the lists. `LineResult` names the case
  each per-line message reports (src/Distributor.h:56-92).
- `Utils::Trim` is defined outside this model. It is a parameter, and the parsing lemmas assume
  that it returns a contiguous run of its input. The round-trip lemmas `SplitJoin` and
  `FourthFieldMayHoldBars` also assume that it leaves each of the joined fields unchanged.
- `Utils::GetFormFromIdentifier` and `RE::fallout_cast` are engine calls. They are the
  uninterpreted `Engine.lookup` and `Engine.asList`.
- `std::unordered_map` iteration order is unspecified. `Distribute` picks the next list with an
  arbitrary choice, and its postcondition holds for every order.
- `std::find` is not modelled as a separate loop. The membership test `form !in arrayOfForms`
  stands in for it.
- Tokenizer.GetNextData: the cursor is an unbounded `nat`, not the source's `uint32_t`, so lines of
  4 GiB or more, where the cursor would wrap, are not modelled.
- Tokenizer.GetNextData: the delimiter is a byte, not a possibly signed `char`; the only delimiters
  used are `|` and 0, and the two agree on those.
- Distribution.Distribute: the set of form lists it may change is a ghost parameter. That parameter
  must contain every list the engine's cast can return; the source needs no such bound.
