# linode-ssh-config, modelled in Dafny

linode-ssh-config builds `~/.ssh/config` entries for a Linode account. The
program works in three steps:

1. It groups the account's linodes by display group and attaches each
   linode's IP records, sorted public-first. It sorts each group by label.
2. It decides which groups and linodes are eligible, from the configured
   display groups.
3. It rewrites the SSH configuration file. The user's own lines are kept.
   A previously generated block between the markers
   `##### START GENERATED LINODE-SSH-CONFIG #####` and
   `##### END GENERATED LINODE-SSH-CONFIG #####` is replaced by a freshly
   rendered block. The old file is backed up first.

The model has six modules:

- `Text`: Go's byte-wise string order, `%d`, and the split of a file into
  scanner lines with its inverse.
- `Grouping`: the generic `m[key(x)] = append(m[key(x)], x)` loop, with its
  specification.
- `Sorting`: an in-place sort of an array under a caller-supplied order,
  standing in for `sort.Sort`.
- `Api` (api/linode.go): the linode and IP records, the queries on them, the
  two grouping loops, the two sorts and the association loop.
- `Policy` (main.go, config.go): the display-group and running filters of
  both configuration versions, and the lookup-set construction.
- `SshConfigFile` (ssh_config.go): the block stripper, the renderer, render
  and update over a store of files.

Modelling choices:

- Go maps are Dafny maps. A loop that ranges over a map takes the order of
  its keys as a parameter (`order`, with `IsKeyOrder`), or picks keys with
  `:|`. Properties are stated so that they hold for every order.
- `sort.Sort` is not stable. The sorts therefore promise only a sorted
  permutation of the input.
- Strings are `seq<char>`. On valid UTF-8 text, comparing code points orders
  strings the same way as Go's byte-wise `<`.
- The existing file is the sequence of lines a line scanner yields. Every
  output is a string in which each line is followed by "\n".
- The text/template entry template is written out as string concatenation.
  `range` over a map visits keys in sorted order. The names a stanza can hold
  are `#`, `Hostname`, `IdentityFile` and `User`, and that order is proved
  strictly increasing.
- File operations act on a `Disk` object: a map from path to contents that
  the operations update in place. Whether each open, create, copy, sync,
  read or write fails is a parameter (`Faults`).

## Model

| member | source | states |
|---|---|---|
| `Text.LessIrreflexive` | api/linode.go:198-200 | no label sorts strictly before itself under Go's string `<` |
| `Text.LessTransitive` | api/linode.go:198-200 | the label order is transitive |
| `Text.LessTotal` | api/linode.go:198-200 | any two different labels are ordered one way or the other |
| `Text.LessAsymmetric` | api/linode.go:198-200 | two labels are never each below the other |
| `Text.Digits` | ssh_config.go:136 | `%d` of a natural number is a non-empty run of decimal digits on one line |
| `Text.Decimal` | ssh_config.go:136 | `%d` never produces a line break |
| `Text.DecimalRoundTrip` | ssh_config.go:136 | the id and RAM printed in the annotation read back as exactly the numbers printed |
| `Text.JoinAppend` | ssh_config.go:90 | writing lines one after another into the buffer gives the joined text of all of them |
| `Text.NewlineIndex` | ssh_config.go:84 | the scanner's line ends at the first "\n", or at the end of the text |
| `Text.SplitLines` | ssh_config.go:83-84 | no scanner line contains a line terminator |
| `Text.SplitJoin` | ssh_config.go:84-90 | scanning newline-terminated lines gives the same lines back |
| `Grouping.ConcatMembers` | api/linode.go:155-166 | a record is collected exactly when one of the batch responses holds it |
| `Grouping.FilterCounts` | api/linode.go:120-123 | a group holds each element with its key exactly as often as the input, and nothing else |
| `Grouping.GroupBy` | api/linode.go:119-123 | the grouped map has an entry exactly for the keys that occur, and no entry is an empty slice |
| `Grouping.GroupByMembers` | api/linode.go:119-123 | every element lands in the group of its own key; a group holds only input elements with its key |
| `Grouping.GroupByCounts` | api/linode.go:119-123 | nothing is lost or duplicated: counts per element match the input; a missing key means no such element |
| `Grouping.FilterSnoc` | api/linode.go:120-122 | one more element extends only the group of its own key, at the end |
| `Grouping.GroupBySnoc` | api/linode.go:120-123 | one `append` step of the loop turns the groups of a prefix into the groups of the longer prefix |
| `Grouping.GroupByStep` | api/linode.go:120-123 | the same step, stated for the loop index |
| `Grouping.GroupByExtend` | api/linode.go:162-165 | the step for a loop that continues from the groups of the earlier responses |
| `Grouping.GroupByEmpty` | api/linode.go:119 | the freshly made map holds no groups |
| `Grouping.FilterEmbeds` | api/linode.go:120-123 | each group picks its elements out of the input at increasing positions |
| `Grouping.GroupKeepsOrder` | api/linode.go:120-123 | within a group, input order is kept |
| `Grouping.GroupSizesSnoc` | api/linode.go:120-123 | one more element raises the total group size by one when its key is counted |
| `Grouping.GroupSizesTotal` | api/linode.go:119-123 | over distinct keys covering all elements, group sizes add up to the input size |
| `Grouping.GroupSizesEmpty` | api/linode.go:119 | the groups of nothing have total size zero |
| `Sorting.InsertionSort` | api/linode.go:186-188 | `sort.Sort` leaves the slice sorted under the given order and a permutation of its input |
| `Sorting.Insert` | api/linode.go:178-180 | adjacent swaps move one element into a sorted prefix; the slice stays a permutation and the elements after it are untouched |
| `Api.FirstIp` | api/linode.go:74-80 | the first-match loop returns the address of the first record with the flag, and "" when none has it |
| `Api.PublicIp` | api/linode.go:72-81 | the address of the first record with `Public == 1`, or "" |
| `Api.PrivateIp` | api/linode.go:83-92 | the address of the first record with `Public == 0`, or ""; other flag values are never chosen |
| `Api.IdsOf` | api/linode.go:48-50 | one id per linode of a group, in group order |
| `Api.Ids` | api/linode.go:45-53 | one id per linode across all groups, so as many ids as `Size`; an id occurs iff some linode has it |
| `Api.SizeRemove` | api/linode.go:57-59 | taking one group out of the range lowers the size by that group's length |
| `Api.SizeAnyOrder` | api/linode.go:55-61 | `Size` is the same whatever order the map is ranged in |
| `Api.GroupLinodes` | api/linode.go:119-123 | the grouping loop builds exactly the grouped map, and each linode sits in the group of its display group |
| `Api.GroupIps` | api/linode.go:155-166 | the loop over all responses builds exactly the IP records grouped by owning linode id |
| `Api.AddIps` | api/linode.go:162-165 | adding one response's records extends the groups built from the earlier responses |
| `Api.GroupedSize` | api/linode.go:119-123 | after grouping, `Size` equals the number of decoded linodes |
| `Api.SizeIsGroupSizes` | api/linode.go:55-61 | `Size` of the grouped map is the sum of the group sizes |
| `Api.ByLabelIsTotalPreorder` | api/linode.go:198-200 | the label comparison is a total order with ties, as `sort.Sort` needs |
| `Api.PublicFirst` | api/linode.go:182-185 | a record may precede another exactly when `Less` does not put the other first: public before private, ties in either order |
| `Api.ByLabel` | api/linode.go:198-200 | a linode may precede another exactly when its label is equal or smaller in byte order |
| `Api.SortLinodeIps` | api/linode.go:182-188 | the IP list ends up a permutation with `Public` non-increasing |
| `Api.SortLinodes` | api/linode.go:198-203 | the group ends up a permutation with labels non-decreasing |
| `Api.PublicIpPrecedesPrivate` | api/linode.go:182-185 | in a list sorted public-first, the public address is the first public record and precedes every private one |
| `Api.FirstIndex` | api/linode.go:74-78 | a record with the flag means a first such record exists, no later than it |
| `Api.Size` | api/linode.go:55-61 | the count is at least the length of every group it ranges over |
| `Api.AttachIps` | api/linode.go:30-35 | a linode with records gets them sorted public-first; one without keeps its own; nothing else changes |
| `Api.Associate` | api/linode.go:29-37 | every group keeps its key, every linode gets its records as above, and every group ends sorted by label |
| `Api.LinodesWithIps` | api/linode.go:12-40 | the directory is the decoded linodes grouped by display group, with records attached and groups sorted |
| `Policy.Search` | main.go:28-33 | the loop returns true exactly when the name is listed |
| `Policy.ContainsDisplayGroup` | main.go:24-34 | an empty list accepts every group; otherwise exactly the listed groups are accepted |
| `Policy.ContainsDependsOnlyOnListedNames` | main.go:28-32 | the answer depends only on which names are listed, not on position or repetition |
| `Policy.FilterDisplayGroup` | config.go:40-47 | no display groups accepts every group; otherwise a group passes exactly when it is a key of the lookup, so a nil lookup passes none |
| `Policy.FilterRunning` | config.go:49-54 | with `Running` set only running linodes pass; without it all do |
| `Policy.BuildLookup` | config.go:22-24 | the lookup holds exactly the listed display groups |
| `Policy.FillLookup` | config.go:22-24 | loading leaves every other field as parsed and makes the lookup exactly the listed groups |
| `Policy.FilterDisplayGroupAgrees` | config.go:40-47 | once the lookup is filled, `filterDisplayGroup` and `ContainsDisplayGroup` agree on every name |
| `Policy.FillLookupAsWritten` | config.go:22-24 | the loop as written panics exactly when groups are listed and the lookup was never made |
| `Policy.NilLookupPanics` | config.go:23 | a parsed configuration with one display group panics in that loop |
| `SshConfigFile.Run` | ssh_config.go:80-99 | the stripper keeps only lines of the file, never a start marker, and no more lines than it read |
| `SshConfigFile.RunAppend` | ssh_config.go:84-99 | scanning two parts of a file is scanning the first, then the second from the flag the first left |
| `SshConfigFile.NoStartKeepsAll` | ssh_config.go:84-99 | a file with no start marker comes back line for line, end markers included |
| `SshConfigFile.InsideDropsAll` | ssh_config.go:85-98 | inside a block every line up to the end marker is dropped |
| `SshConfigFile.BlockDropped` | ssh_config.go:85-98 | a whole block, markers included, leaves nothing and ends outside a block |
| `SshConfigFile.StripBlock` | ssh_config.go:80-99 | a block in the middle of a file is removed, and the lines around it are kept in order |
| `SshConfigFile.OrphanStart` | ssh_config.go:85-98 | a start marker with no end marker after it drops the rest of the file |
| `SshConfigFile.StartInsideBlock` | ssh_config.go:85-87 | a start marker inside a block has no effect |
| `SshConfigFile.UserLinesIdempotent` | ssh_config.go:80-99 | stripping already-stripped lines changes nothing |
| `SshConfigFile.StripGenerated` | ssh_config.go:80-105 | the loop writes exactly the kept lines, each followed by "\n" |
| `SshConfigFile.DirectiveOrderIncreasing` | ssh_config.go:114-115 | `#` < `Hostname` < `IdentityFile` < `User` in Go's string order |
| `SshConfigFile.PickMembers` | ssh_config.go:114-115 | the listed entries are exactly the map's entries with a listed name |
| `SshConfigFile.PickIncreasing` | ssh_config.go:114-115 | taken in increasing name order, the entries come out in increasing name order |
| `SshConfigFile.TemplateOrder` | ssh_config.go:114-117 | `range` visits each entry of the stanza map exactly once, in strictly increasing key order |
| `SshConfigFile.Annotation` | ssh_config.go:136 | the `#` value starts with the display group and " \| Linode ID ", and has no line break when the group has none |
| `SshConfigFile.KeyVals` | ssh_config.go:135-143 | the stanza map always holds `#` and `Hostname`, holds `IdentityFile` and `User` exactly when they are set, and nothing else |
| `SshConfigFile.EntryText` | ssh_config.go:114-117 | the executed template begins with `Host <label>` and ends with a line break, the indentation-only line and a line break |
| `SshConfigFile.DirectiveLines` | ssh_config.go:115 | one directive line per entry |
| `SshConfigFile.DirectiveTextLines` | ssh_config.go:114-116 | the template's "\n before each directive" equals "\n after each line" |
| `SshConfigFile.EntryTextLines` | ssh_config.go:114-117 | the executed template is the host line, the directive lines and the indentation-only line, each ending in "\n" |
| `SshConfigFile.DirectivesUnrolled` | ssh_config.go:114-115 | the template visits `#`, `Hostname`, `IdentityFile`, `User`, skipping absent names |
| `SshConfigFile.KeyValsEntries` | ssh_config.go:135-143 | the map holds `#` and `Hostname` always, and `IdentityFile` and `User` only when set |
| `SshConfigFile.DirectivesOfKeyVals` | ssh_config.go:135-144 | the directives of one stanza, in the order they are printed |
| `SshConfigFile.DirectiveLinesAppend` | ssh_config.go:114-115 | the directive lines of two runs of entries are those of each, in order |
| `SshConfigFile.StanzaLayout` | ssh_config.go:134-147 | the stanza is `Host <label>`, `# <group> \| Linode ID <id> \| <ram>m Ram`, `Hostname <public ip or "">`, then `IdentityFile` and `User` only when set, then the separator |
| `SshConfigFile.GroupStanzasStep` | ssh_config.go:130-148 | each linode adds its stanza when running and nothing otherwise |
| `SshConfigFile.SectionsStep` | ssh_config.go:125-149 | each group adds its section to the block |
| `SshConfigFile.SectionJoin` | ssh_config.go:125-129 | an accepted group writes `## <group>`, a blank line, then its stanzas; a rejected group writes nothing |
| `SshConfigFile.BlockStart` | ssh_config.go:122 | the block opens with the start marker and "\n\n" |
| `SshConfigFile.BlockText` | ssh_config.go:121-152 | the block is the start marker and "\n\n", the sections, then the end marker and "\n" |
| `SshConfigFile.WriteStanzas` | ssh_config.go:130-148 | the inner loop writes the stanzas of the group's running linodes, in group order |
| `SshConfigFile.WriteSections` | ssh_config.go:125-149 | the outer loop writes the sections of the groups in range order, each accepted group's header followed by its stanzas |
| `SshConfigFile.GeneratedConfig` | ssh_config.go:120-153 | generatedConfig writes the block's lines, framed by the start and end markers |
| `SshConfigFile.RunningOf` | ssh_config.go:130-133 | the linodes given a stanza within a group are exactly its running ones |
| `SshConfigFile.Rendered` | ssh_config.go:125-148 | a linode gets a stanza iff it is running in a group of the range that the filter accepts |
| `SshConfigFile.Accepted` | ssh_config.go:125-129 | a group gets a header iff it is in the range and the filter accepts it |
| `SshConfigFile.StanzaSelect` | ssh_config.go:114-117 | a stanza has exactly one host line and no header line |
| `SshConfigFile.DirectiveLinesIndented` | ssh_config.go:115 | every directive line starts with the eight-space indent |
| `SshConfigFile.GroupSelect` | ssh_config.go:130-148 | a group's host lines are those of its running linodes, in order, and it has no header line |
| `SshConfigFile.SectionSelect` | ssh_config.go:125-148 | an accepted group contributes its header and its running hosts; a rejected group contributes nothing |
| `SshConfigFile.SectionsSelect` | ssh_config.go:125-149 | the sections' host and header lines follow the groups in range order |
| `SshConfigFile.SectionsHosts` | ssh_config.go:125-148 | the sections' host lines are those of the rendered linodes, in range order |
| `SshConfigFile.SectionsHeaders` | ssh_config.go:125-129 | the sections' header lines are those of the accepted groups, in range order |
| `SshConfigFile.BlockSelect` | ssh_config.go:120-153 | the block has one host line per running linode in an accepted group, in output order, and one header per accepted group |
| `SshConfigFile.MarkersSelectNothing` | ssh_config.go:122 | the marker lines and the blank line are neither host nor header lines |
| `SshConfigFile.HeaderIff` | ssh_config.go:125-129 | `## <g>` appears iff the map holds `g` and the filter accepts it, whatever the range order |
| `SshConfigFile.RenderedIff` | ssh_config.go:125-133 | a linode gets a stanza iff it is running in an accepted group of the map, whatever the range order |
| `SshConfigFile.InnerLineNotMarker` | ssh_config.go:65-66 | no blank, header, host or indented line equals either marker |
| `SshConfigFile.MarkerChars` | ssh_config.go:65-66 | both markers have '#' at positions 0 and 2, while the prefix "Host " starts with 'H' and the prefix "## " has ' ' at position 2, so neither prefix matches a marker |
| `SshConfigFile.MarkersSingleLine` | ssh_config.go:65-66 | neither marker contains a line break |
| `SshConfigFile.FirstIpSingleLine` | api/linode.go:72-81 | the public address is one of the record addresses or "", so it adds no line break |
| `SshConfigFile.DirectiveLinesSingle` | ssh_config.go:115 | directive lines made of one-line names and values are one line each |
| `SshConfigFile.StanzaWellFormed` | ssh_config.go:114-117 | stanza lines are host or indented lines, and one line each when the inputs have no line breaks |
| `SshConfigFile.DirectivesSingleLine` | ssh_config.go:136-143 | the directive values have no line break when the label, group, addresses and settings have none |
| `SshConfigFile.GroupWellFormed` | ssh_config.go:130-148 | a group's stanza lines are neither marker, and one line each for printable inputs |
| `SshConfigFile.SectionsWellFormed` | ssh_config.go:125-149 | the same for all sections, headers included |
| `SshConfigFile.BlockWellFormed` | ssh_config.go:120-153 | the markers occur only at the block's two ends, and every line is a single line for printable inputs |
| `SshConfigFile.ExtractAfterRender` | ssh_config.go:51-63 | stripping render's output gives back exactly the user lines that went into it |
| `SshConfigFile.RenderStable` | ssh_config.go:51-63 | rendering over render's own output gives the same text as rendering over the original, whatever order each run ranges the groups in |
| `SshConfigFile.RangeOrderMatters` | ssh_config.go:125 | two accepted groups ranged in the two possible orders give different block texts |
| `SshConfigFile.UpdateTwiceStable` | ssh_config.go:36-48 | a second update to the same path writes what a single update would have written, whatever the first update's directory and range order |
| `SshConfigFile.Disk.CopyFile` | ssh_config.go:163-182 | a failed open or create changes nothing; otherwise the destination holds the copied prefix, or the whole source, and only a full, synced copy succeeds |
| `SshConfigFile.Disk.WriteFile` | ssh_config.go:47 | the file holds the contents on success, a prefix on a short write, and is untouched when it cannot be opened |
| `SshConfigFile.UsersConfig` | ssh_config.go:69-106 | a missing file gives empty user content, not an error; otherwise the stripped lines, or an error when reading fails |
| `SshConfigFile.Render` | ssh_config.go:51-63 | render yields the user content followed by the generated block, and fails only when the existing file cannot be read |
| `SshConfigFile.Update` | ssh_config.go:36-48 | on success the backup holds the old file and the file holds render's output; a failed backup leaves the file untouched; the file never changes unless the backup holds its old contents; no other file changes |

## Left out

- The provider API: building requests, batching actions, the HTTP call, JSON
  decoding and the joining of error messages (api/linode.go:12-27, 98-118,
  137-160). `Api.LinodesWithIps` starts from the decoded lists.
- INI parsing, the configuration file's existence check and home-directory
  lookup in both `loadConfig` versions (main.go:36-55, config.go:10-21). The
  path of the SSH configuration file is a parameter.
- `fileExists` is modelled as membership of the path in the store. Failures
  of open, create, copy, sync and write are parameters.
- Api.AttachIps: in Go, `linode.Ips = ips` makes the linode share the slice
  held in the IP map, which the sort has reordered in place. The model gives
  each linode a sorted copy and leaves the map unchanged. Pointer sharing
  between the grouped map and the decoded list is not modelled either.
- SshConfigFile.UsersConfig: the scanner's removal of a "\r" before "\n" and
  its 64 KiB line limit are not modelled. A read error from open or from the
  scanner is a single `readFails` parameter.
- Go map iteration order (api/linode.go:29, 47, 57; ssh_config.go:125) is
  nondeterministic. It is a parameter `order`, or a `:|` choice in
  `Api.Associate`. Output that is byte-identical from run to run needs both
  runs to range the groups in the same order. Go draws a fresh order each
  run, and `SshConfigFile.RangeOrderMatters` shows two groups whose two
  orders give different files. `RenderStable` and `UpdateTwiceStable` hold
  for any pair of orders.
- SshConfigFile.ExtractAfterRender: holds only when group names, labels,
  display groups, IP addresses, `User` and `IdentityFile` contain no "\n"
  (`Printable`). With a line break in any of them, the rendered block
  re-splits into different lines.
- The pretty-printing of linodes, ANSI colouring and command-line dispatch
  (main.go:57-108).
- `IsRunning` (api/linode.go:94-96) is the predicate `status == 1` itself,
  with no separate contract.
- The text/template engine. Its output for `entryTemplate` is written out as
  concatenation. Execution into a byte buffer cannot fail, so its error
  branch (ssh_config.go:145-147) does not arise.

## Findings

| source | as written | input that shows it | evidently intended | confidence | as-written member | corrected member |
|---|---|---|---|---|---|---|
| config.go:22-24 | assigns into `displayGroupLookup`, a map that nothing creates; in Go a write to a nil map panics | a configuration file with `display-group = prod` | make the lookup, then fill it, so that `filterDisplayGroup` accepts exactly the listed groups | not executed | `Policy.FillLookupAsWritten` (exhibited by `Policy.NilLookupPanics`) | `Policy.FillLookup` (with `Policy.BuildLookup` and `Policy.FilterDisplayGroupAgrees`) |
