# nmap-visualizer: the report parser

This project models `NmapParser.parse` of nmap-visualizer (`src/lib/nmap-parser.ts`).
The function reads the console output of `nmap -sV` and returns the scanned hosts.
Each host has an ordered list of port rows, and each port has a dictionary of script output.
The parser is a single pass over the lines of the report. It keeps two pieces of state: the host being filled and the current port. Four line recognizers are tried in a fixed order:

- a host report line, `Nmap scan report for <name> (<address>)`;
- a port row, `<port>/<protocol> <state> <service> [<version>]`;
- a key:value script line, `|_key: value` or `| key: value`;
- any other `|` line, which continues the value of the last script key.

Modules, in dependency order:

- `Text` (`text.dfy`): the string primitives the source uses.
  - JavaScript whitespace (`\s`, `trimEnd`, `trim`).
  - Greedy character-class runs, which are how the regular expressions scan.
  - `split('\n')` and its inverse.
  - The first index of a character.
- `ScriptTable` (`scripts.dfy`): the `scripts` object, as an insertion-ordered association list with unique keys.
  - `Put` is `scripts[key] = value`.
  - `AppendToLast` is the continuation update of the last key.
- `Records` (`records.dfy`): `Host` and `Port`.
- `HostLine`, `PortLine`, `ScriptLine` (`host_line.dfy`, `port_line.dfy`, `script_line.dfy`): the five regular expressions of the source (`nmap-parser.ts:27`, `:41`, `:62`, `:63`, `:76`), each written as a hand-written recognizer. `ScriptLine` covers the last three: the plain and inline key:value patterns and the continuation pattern.
  - Each module's doc comment explains why its recognizer gives the captures the JavaScript engine gives: lazy and greedy groups, backtracking, and `.` not matching line terminators.
  - Each recognizer comes with round-trip lemmas: rendering well-formed pieces and matching the result gives the pieces back.
- `NmapParser` (`parser.dfy`): the pass itself.
  - `Parse` is the imperative loop of the source. Its locals are `hosts`, `currentHost` and `currentPort`, and the body of the loop is `ParseLine`.
  - `Parse` is proved equal to `ParseSpec`: a fold of `Step` over the trimmed lines, from the state `Scan(hosts, cursor)`.
  - `currentPort` is a reference into a host's port list in the source. Here it is the location `Loc(host, port)`. The source's aliasing becomes explicit: after a host line, a script line still updates a port of a host that has already been pushed.
- `ParserProperties` (`parser_properties.dfy`): what the pass promises, proved about `Run`/`ParseSpec`.
- `LineExamples`, `ReportExample` (`line_examples.dfy`, `report_example.dfy`): concrete lines and a three-line report, derived from the general lemmas.

Three behaviours of the code are easy to misread, and the model keeps them as the code has them:

- A host line does not reset the current port (`nmap-parser.ts:28-35` never assigns `currentPort`). Script lines that follow a new host line, before its first port row, change the most recently created port, in whichever earlier host holds it. For example, if host A has a port, host B has none and host C then starts, script lines after C's host line change A's port.
- A continuation line loses all whitespace after the `|`, not one space. `\s*` in `/^\|\s*(.*)/` is greedy.
- The `ip` of a host can be empty, for example for `Nmap scan report for  ()`.

## Model

| member | source | states |
|---|---|---|
| NmapParser.Parse | src/lib/nmap-parser.ts:17-94 | the loop over the split, end-trimmed lines, with the final flush of the current host, returns exactly `ParseSpec(rawText)`, the fold of `Step` over the lines |
| NmapParser.ParseLine | src/lib/nmap-parser.ts:27-86 | one iteration on `hosts`, `currentHost`, `currentPort` is one `Step` of the specification on `hosts + [currentHost]`; `currentHost` empty implies nothing was recorded |
| NmapParser.Step | src/lib/nmap-parser.ts:27-86 | every line keeps the current port designating an existing port of an existing host |
| NmapParser.Run | src/lib/nmap-parser.ts:23-87 | after any lines the current port designates an existing port |
| NmapParser.AddPort | src/lib/nmap-parser.ts:45-53 | pushing a port onto the host being filled makes it a valid current port |
| NmapParser.UpdateScripts | src/lib/nmap-parser.ts:65-84 | changing the current port's scripts keeps the current port valid |
| NmapParser.WithScripts | src/lib/nmap-parser.ts:72 | replacing the scripts of port `j` changes that port's scripts and nothing else of the host |
| NmapParser.Lines | src/lib/nmap-parser.ts:18-24 | one line per piece of `split('\n')`; each line is a prefix of its piece that does not end in whitespace, and only whitespace follows it in the piece (what `trimEnd` leaves) |
| NmapParser.RunSnoc | src/lib/nmap-parser.ts:23 | one more line is one more step of the fold |
| NmapParser.HostLineStep | src/lib/nmap-parser.ts:28-34 | a host line appends an empty host with the line's ip and no `os` after the host being filled, and keeps the current port |
| NmapParser.PortRowIsAddPort | src/lib/nmap-parser.ts:41-44 | after a host line, every line the port pattern matches adds its port, whatever the header test says |
| NmapParser.AddPortAppends | src/lib/nmap-parser.ts:45-53 | adding a port appends it to the last host's ports, leaves the other hosts unchanged, and points the current port at it |
| NmapParser.ScriptEffect | src/lib/nmap-parser.ts:66-84 | on the current port's scripts: a key:value line makes the key read back the value and leaves every other key's value as it was; any other `\|` line keeps the keys and appends `'\n'` and the continuation text to the last key's value only |
| NmapParser.PortStep | src/lib/nmap-parser.ts:44-54 | a port row appends the port to the host being filled and makes it the current port |
| NmapParser.ScriptStep | src/lib/nmap-parser.ts:61-84 | a script line with a current port changes that port's scripts, whether its host is pushed or still being filled |
| NmapParser.OtherStep | src/lib/nmap-parser.ts:37-86 | any other line leaves hosts and cursor unchanged |
| ParserProperties.RunHosts | src/lib/nmap-parser.ts:27-35 | the ips of the hosts are the ips of the host lines, in input order, one host per host line (never merged), and no host gets an `os` |
| ParserProperties.HostCount | src/lib/nmap-parser.ts:27-35 | the number of hosts returned is the number of host lines |
| ParserProperties.StepHosts | src/lib/nmap-parser.ts:27-35 | one line adds a host exactly when it is a host line; the new host has the line's ip, no ports and no `os`; earlier hosts keep their ip and `os` |
| ParserProperties.NoHostLineNoHost | src/lib/nmap-parser.ts:37 | lines before any host line leave the state at its start: no host, no current port, no port recorded |
| ParserProperties.NoHostReport | src/lib/nmap-parser.ts:37 | a report without a host line parses to `[]` |
| ParserProperties.EmptyReport | src/lib/nmap-parser.ts:18-37 | the empty report parses to `[]` |
| ParserProperties.LinesOfJoin | src/lib/nmap-parser.ts:18-24 | a report made of lines without `\n` and trailing whitespace is read back line by line |
| ParserProperties.ScriptLineIsNoRow | src/lib/nmap-parser.ts:27-61 | a `\|` line is neither a host line nor a port row |
| ParserProperties.HostLineNeedsN | src/lib/nmap-parser.ts:27 | a line not starting with `N` is no host line |
| ParserProperties.PortRowAppends | src/lib/nmap-parser.ts:41-54 | a port row after a host line appends exactly that port to the last host and makes it the current port; all other hosts are unchanged |
| ParserProperties.StepPortCount | src/lib/nmap-parser.ts:37-55 | the total number of ports grows by one exactly on a port row after a host line, and stays the same on every other line |
| ParserProperties.NonRowsAddNoPort | src/lib/nmap-parser.ts:41-44 | the header row and lines with fewer than three whitespace-separated fields add no port |
| ParserProperties.ScriptLineWithoutPort | src/lib/nmap-parser.ts:65 | a script line before any port row changes nothing |
| ParserProperties.ScriptLineAssigns | src/lib/nmap-parser.ts:61-73 | a key:value line sets the current port's `scripts[key] = value` (`Put`): the key reads back the value, other keys keep theirs, the key is appended only if new, and nothing outside that port's scripts changes |
| ParserProperties.ContinuationAppends | src/lib/nmap-parser.ts:74-83 | a `\|` line that is not key:value appends `'\n'` and its text to the last key's value (`AppendToLast`) and changes nothing else |
| ParserProperties.CursorSurvivesHostLine | src/lib/nmap-parser.ts:28-35 | after a new host line the cursor is unchanged, and a script line changes the earlier host's port while the new host stays empty |
| ParserProperties.ScriptEffectKeepsUnique | src/lib/nmap-parser.ts:72-81 | assignments and continuations keep a script table's keys unique |
| ParserProperties.StepKeepsKeysUnique | src/lib/nmap-parser.ts:27-86 | every step keeps every port's script keys unique |
| ParserProperties.RunKeysUnique | src/lib/nmap-parser.ts:13 | the script tables `parse` builds have unique keys, as an object's keys are |
| ParserProperties.PortCountUpdate | src/lib/nmap-parser.ts:53 | replacing a host changes the port total by the change in its port count |
| HostLine.Match | src/lib/nmap-parser.ts:27 | a match starts with the prefix; the name is the least length after which the rest splits (no line terminator in it); the address is captured exactly when the rest after the name is whitespace, `(`, address, `)`; no match means no prefix or no split point |
| HostLine.SplitIndex | src/lib/nmap-parser.ts:27 | the lazy group's search finds the least split length from `k`, or proves there is none |
| HostLine.AddressOf | src/lib/nmap-parser.ts:27 | the address is what lies between the parentheses that end the line |
| HostLine.IpWithAddress | src/lib/nmap-parser.ts:27-31 | for every line `<prefix><name><whitespace>(<address>)` with a name without whitespace, the ip is the address, or the name when the address is empty |
| HostLine.IpWithoutAddress | src/lib/nmap-parser.ts:27-31 | for every line `<prefix><name>` with a name without whitespace, the ip is the name |
| HostLine.MatchAt | src/lib/nmap-parser.ts:27 | when a split point is the least one, the match is the captures there |
| HostLine.TailOf | src/lib/nmap-parser.ts:27 | a non-empty whitespace run followed by `(<address>)`, with no line terminator in the address, is the optional group, and group 2 is that address |
| HostLine.CapturesAt | src/lib/nmap-parser.ts:27 | group 1 is the text up to the split point; group 2 is present exactly when the rest is the optional group, and then it sits in the parentheses that end the line |
| HostLine.PrefixSuffices | src/lib/nmap-parser.ts:27 | every line that starts with the prefix and holds no line terminator after it is a host line |
| HostLine.NameAndAddress | src/lib/nmap-parser.ts:27-31 | `<prefix><name> (<address>)` with a name without whitespace gives that name and address |
| HostLine.NameOnly | src/lib/nmap-parser.ts:27-31 | `<prefix><name>` gives that name and no address |
| PortLine.Match | src/lib/nmap-parser.ts:41-52 | a matched port has a non-empty protocol and state from `[a-zA-Z0-9_-]`, a non-empty service without whitespace, a version without line terminators or leading whitespace, and no scripts |
| PortLine.Split | src/lib/nmap-parser.ts:41 | the pieces found are well formed and spell the line |
| PortLine.SplitRender | src/lib/nmap-parser.ts:41 | matching the rendering of well-formed pieces gives them back, so the groups are determined by the line |
| PortLine.MatchRender | src/lib/nmap-parser.ts:41-52 | a rendered row yields the port: `portId` is `DecimalValue` (`parseInt`) of the digits, protocol, state and service are the groups verbatim, `version` is group 5 or `""` without the optional group, and scripts are empty |
| PortLine.SplitTail | src/lib/nmap-parser.ts:41 | the optional tail is a whitespace run and a version without line terminators, and spells the rest of the line |
| PortLine.DecimalValue | src/lib/nmap-parser.ts:46 | `parseInt(digits, 10)`: a number written with `n` digits is below `10^n` |
| PortLine.LeadingZero | src/lib/nmap-parser.ts:46 | a leading `0` does not change the value, as `parseInt("0080", 10)` is 80 |
| PortLine.PortOf | src/lib/nmap-parser.ts:45-52 | the port has no more digits than the row writes; protocol, state and service are the groups; the version ends the row and is `""` when there is no optional group; scripts start empty |
| PortLine.IsHeader | src/lib/nmap-parser.ts:42 | a line is the header exactly when it starts with `PORT` and `STATE` occurs at some index of it |
| PortLine.HeaderNeverMatches | src/lib/nmap-parser.ts:42-44 | a matching row is never a header, and a `PORT` line never matches: the header test is redundant |
| PortLine.MatchNeedsThreeFields | src/lib/nmap-parser.ts:41 | a matching line has at least three whitespace-separated fields |
| PortLine.StateOutsideClassNeverMatches | src/lib/nmap-parser.ts:41 | a row whose third field holds a character outside `[a-zA-Z0-9_-]` (as `open\|filtered`) never matches |
| PortLine.StateOfRow | src/lib/nmap-parser.ts:41 | the state of a well-formed row is its second whitespace-separated field |
| PortLine.RowHead | src/lib/nmap-parser.ts:41 | `<port>/<protocol>` is one non-empty field without whitespace |
| ScriptLine.MatchScript | src/lib/nmap-parser.ts:62-70 | `scriptInlineMatch \|\| scriptMatch`: it matches exactly when one shape matches; the key is trimmed and free of `:`, the value trimmed and free of line terminators (the round trips below pin both to the line) |
| ScriptLine.MatchInline | src/lib/nmap-parser.ts:63 | the inline shape's trimmed key has no `:`, its trimmed value no line terminator |
| ScriptLine.MatchPlain | src/lib/nmap-parser.ts:62 | the plain shape's trimmed key has no `:`, its trimmed value no line terminator |
| ScriptLine.ShapesAgree | src/lib/nmap-parser.ts:62-67 | when both shapes match they give the same key and value, so the order they are tried in does not matter |
| ScriptLine.InlineRoundTrip | src/lib/nmap-parser.ts:63-70 | `\|<_?><ws?><key><ws?>:<ws><value><cut>` gives back the key and the value, where `cut` is empty or starts with a line terminator; without `_`, a key flush against the marker must not start with `_` |
| ScriptLine.PlainRoundTrip | src/lib/nmap-parser.ts:62-70 | `\|<ws><key><ws?>:<ws?><value><cut>` gives back the key and the value, whichever shape matches, where `cut` is empty or starts with a line terminator |
| ScriptLine.UnderscoreKey | src/lib/nmap-parser.ts:63-70 | `\|_:<ws><value><cut>` has the key `_`: the optional `_` is given back to the key group |
| ScriptLine.ValueOf | src/lib/nmap-parser.ts:63-70 | the value group after whitespace is the trimmed text up to the first line terminator |
| ScriptLine.KeyOf | src/lib/nmap-parser.ts:62-69 | the key group between the marker and the first colon, trimmed, is the key without its surrounding whitespace |
| ScriptLine.NoColonIsContinuation | src/lib/nmap-parser.ts:62-76 | a `\|` line without a colon is a continuation |
| ScriptLine.UnderscoreWithoutSpaceIsContinuation | src/lib/nmap-parser.ts:62-63 | `\|_<key>:<value>` without whitespace after the colon matches neither shape |
| ScriptLine.ContinuationText | src/lib/nmap-parser.ts:76-81 | the appended text has no surrounding whitespace and no line terminator |
| ScriptLine.ContinuationRoundTrip | src/lib/nmap-parser.ts:76-81 | after the marker, all leading whitespace is dropped and the rest is kept |
| ScriptLine.ValueAfter | src/lib/nmap-parser.ts:70 | the value group, trimmed, has no surrounding whitespace and no line terminator |
| ScriptLine.KeyBetween | src/lib/nmap-parser.ts:69 | the key group, trimmed, has no surrounding whitespace and no `:` |
| ScriptTable.Put | src/lib/nmap-parser.ts:72 | an existing key keeps its position, a new key is appended; keys stay unique; the key reads back the value; other keys are unchanged |
| ScriptTable.PutPut | src/lib/nmap-parser.ts:72 | last write wins: assigning a key twice is assigning the second value once |
| ScriptTable.PutSize | src/lib/nmap-parser.ts:72 | an assignment adds at most one entry, exactly one for a new key |
| ScriptTable.PutAsMap | src/lib/nmap-parser.ts:72 | seen as a map, `Put` is map update |
| ScriptTable.LookupAsMap | src/lib/nmap-parser.ts:13 | with unique keys, the map view and lookup agree |
| ScriptTable.Lookup | src/lib/nmap-parser.ts:72 | a key reads back a value exactly when it was assigned |
| ScriptTable.AppendToLast | src/lib/nmap-parser.ts:78-81 | the keys stay as they are, only the last key's value grows by the suffix, and an empty table stays empty |
| ScriptTable.IndexOf | src/lib/nmap-parser.ts:72 | the position of the first entry for a key, or none when absent |
| ScriptTable.AsMap | src/lib/nmap-parser.ts:13 | the map view has exactly the table's keys |
| Text.SplitLines | src/lib/nmap-parser.ts:18 | `split('\n')`: at least one piece, none holds `\n`, and joining them with `\n` gives the input |
| Text.SplitJoin | src/lib/nmap-parser.ts:18 | splitting a join of newline-free lines gives the lines back |
| Text.TrimEnd | src/lib/nmap-parser.ts:24 | `trimEnd` keeps a prefix that does not end in whitespace and removes only whitespace |
| Text.TrimEndOf | src/lib/nmap-parser.ts:24 | `trimEnd` removes exactly a trailing whitespace run |
| Text.TrimStart | src/lib/nmap-parser.ts:62-76 | what a greedy `\s*` skips: the result is a suffix not starting with whitespace, and only whitespace precedes it |
| Text.TrimStartOf | src/lib/nmap-parser.ts:62-76 | a greedy `\s*` skips exactly a leading whitespace run |
| Text.AsciiSpace | src/lib/nmap-parser.ts:24 | among ASCII characters, `\s` is exactly the space and tab through carriage return |
| Text.ContainsAt | src/lib/nmap-parser.ts:42 | `includes` holds exactly when the text starts at some index |
| Text.TrimOf | src/lib/nmap-parser.ts:69-70 | `trim` removes exactly the surrounding whitespace of a trimmed text |
| Text.Trim | src/lib/nmap-parser.ts:69-70 | the result is no longer than the input and has no surrounding whitespace |
| Text.RunsOf | src/lib/nmap-parser.ts:41 | a greedy scan of consecutive character-class runs recovers the runs when neighbouring classes exclude each other |
| Text.Runs | src/lib/nmap-parser.ts:41 | the runs found are non-empty, in their classes, and with the rest spell the input |
| Text.SpanUnique | src/lib/nmap-parser.ts:41 | a split into a run of a class and a rest not starting in it is unique |
| Text.FirstIndex | src/lib/nmap-parser.ts:62-63 | the first occurrence of a character, or none when it is absent |
| Text.FirstIndexAt | src/lib/nmap-parser.ts:62-63 | the first occurrence is found wherever it is |
| Text.UpToTerminator | src/lib/nmap-parser.ts:70-76 | what `.*` takes: the longest prefix without a line terminator |
| Text.CountFieldsWord | src/lib/nmap-parser.ts:41 | a word without whitespace followed by whitespace is one field |
| LineExamples.AddressPreferred | src/lib/nmap-parser.ts:27-31 | `host.example (10.0.0.5)` has ip `10.0.0.5` |
| LineExamples.BareAddress | src/lib/nmap-parser.ts:27-31 | `192.168.1.1` has ip `192.168.1.1` |
| LineExamples.LazyName | src/lib/nmap-parser.ts:27 | `a (b) (c)` has name `a` and address `b) (c` |
| LineExamples.EmptyIp | src/lib/nmap-parser.ts:27-31 | `Nmap scan report for  ()` has the empty ip |
| LineExamples.ClosedSsh | src/lib/nmap-parser.ts:41-52 | `22/tcp closed ssh` is port 22 with an empty version |
| LineExamples.OpenHttpWithVersion | src/lib/nmap-parser.ts:41-52 | `80/tcp open http nginx 1.18.0` has version `nginx 1.18.0` |
| LineExamples.HeaderRow | src/lib/nmap-parser.ts:42 | the header row is no port |
| LineExamples.OpenFiltered | src/lib/nmap-parser.ts:41 | `80/tcp open\|filtered http` is no port |
| LineExamples.InlineTitle | src/lib/nmap-parser.ts:63-70 | `\|_http-title: Welcome` assigns `http-title` = `Welcome` |
| LineExamples.PlainKey | src/lib/nmap-parser.ts:62-70 | `\| ssl-cert: Subject` assigns `ssl-cert` = `Subject` |
| LineExamples.EmptyValue | src/lib/nmap-parser.ts:62-70 | `\| ssl-cert:` assigns the empty value |
| LineExamples.IndentedKey | src/lib/nmap-parser.ts:62-70 | `\|   Subject: x` assigns a key `Subject` of its own |
| LineExamples.SpacedKey | src/lib/nmap-parser.ts:62-70 | `\| key : v` assigns `key` = `v` |
| LineExamples.UnderscoreIsKey | src/lib/nmap-parser.ts:63-70 | `\|_: x` assigns `_` = `x` |
| LineExamples.ValueCutAtReturn | src/lib/nmap-parser.ts:63-70 | in `\|_k: v\rjunk` the value is `v`: `.` stops at the carriage return |
| LineExamples.ContinuedText | src/lib/nmap-parser.ts:74-81 | `\|   continued text` continues with `continued text` |
| LineExamples.UnderscoreContinuation | src/lib/nmap-parser.ts:74-81 | `\|_done` continues with `_done`, underscore kept |
| ReportExample.FirstEntry | src/lib/nmap-parser.ts:65-72 | a key:value line on a host whose one port has no scripts gives that port exactly one entry |
| ReportExample.ThreeLineReport | src/lib/nmap-parser.ts:17-94 | a host line, a port row and an inline script line give one host with one port holding one script entry |

## Left out

- Regular expressions in general: the five patterns of the source are hand-written recognizers. Their agreement with the JavaScript engine is argued in the module doc comments, not derived from a regex semantics.
- Whitespace is the full set that JavaScript's `\s`, `trim` and `trimEnd` use. Unicode categories, normalisation and UTF-16 surrogate pairs are not modelled: a string is a sequence of `char`.
- `parseInt` loses precision above 2^53. `portId` is an unbounded `nat`.
- The `scripts` object is an insertion-ordered association list. JavaScript's key-order quirks are not modelled: integer-like keys such as `"80"` enumerate first, in ascending order, and assigning `"__proto__"` does not create a key.
- `os` is never assigned by the parser, so every host has `os == None`.
- The guards on `scripts` never change the outcome, because every port is created with `scripts: {}` (`nmap-parser.ts:51`). `if (!currentPort.scripts)` at `nmap-parser.ts:71` never fires, and the condition `rawMatch && currentPort.scripts` at `nmap-parser.ts:77` always holds, since `/^\|\s*(.*)/` matches every line that starts with `|`. `scripts` is therefore a plain field.
- `Parse` keeps the state as immutable sequences. The shared mutable `Port` object that `currentPort` aliases is the location `Loc(host, port)`, and an update through the alias rewrites that element of the host list.
- ParserProperties.NonRowsAddNoPort: stated in whitespace-separated fields. `<port>/<protocol>` is one whitespace field, so the three fields counted here are the four groups port, protocol, state and service.
- HostLine.NameAndAddress: stated for names without whitespace. `HostLine.Match` itself handles every name.
- HostLine.NameOnly: stated for names without whitespace. `HostLine.Match` itself handles every name.
- HostLine.IpWithAddress: stated for names without whitespace, like `HostLine.NameAndAddress`, which it rests on. A name with whitespace, as in `a b (c)`, is handled by `HostLine.Match` but not covered by a general ip lemma.
- HostLine.IpWithoutAddress: stated for names without whitespace, like `HostLine.NameOnly`, which it rests on.
- ScriptLine.InlineRoundTrip: a line cut by a line terminator is covered only when the value before the terminator is non-empty. With an empty value, `\s*` skips the terminator and the value group takes the text after it; `ScriptLine.ValueAfter` computes that case, but no round trip states it.
- ScriptLine.PlainRoundTrip: the same restriction on a line cut by a line terminator as `ScriptLine.InlineRoundTrip`.
- ScriptLine.UnderscoreKey: the same restriction on a line cut by a line terminator as `ScriptLine.InlineRoundTrip`.
- `src/App.tsx`, `src/components/DetailDrawer.tsx`, `src/components/HostNode.tsx`, `src/components/PortNode.tsx` and `vite.config.ts`: UI layout, rendering and build configuration, not part of this model.
