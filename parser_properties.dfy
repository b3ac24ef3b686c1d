/**
 * What the pass promises, stated over the specification `Run`/`ParseSpec`
 * (and so over `Parse`, which computes it): where hosts come from, when a
 * port is added, what script lines do to the current port, and that the
 * current port outlives a host line.
 */
module ParserProperties {
  import opened Text
  import opened Records
  import ScriptTable
  import HostLine
  import PortLine
  import ScriptLine
  import opened NmapParser

  /** The `ip` a host line announces, none for another line. */
  function AnnouncedIp(line: string): seq<string> {
    match HostLine.Match(line)
    case Some(c) => [HostLine.Ip(c)]
    case None => []
  }

  /** The `ip` of every host line among `lines`, in order. */
  function HostLineIps(lines: seq<string>): seq<string> {
    if lines == [] then []
    else HostLineIps(lines[..|lines| - 1]) + AnnouncedIp(lines[|lines| - 1])
  }

  function Ips(hosts: seq<Host>): (ips: seq<string>)
    ensures |ips| == |hosts|
  {
    seq(|hosts|, i requires 0 <= i < |hosts| => hosts[i].ip)
  }

  /** A host line starts with `N`. */
  lemma HostLineStart(line: string)
    requires HostLine.Match(line).Some?
    ensures |line| > 0 && line[0] == 'N'
  {
    assert line[..|HostLine.Prefix|] == HostLine.Prefix;
    assert line[0] == line[..|HostLine.Prefix|][0];
  }

  /** A line that does not start with `N` is no host line. */
  lemma HostLineNeedsN(line: string)
    requires line == [] || line[0] != 'N'
    ensures HostLine.Match(line).None?
  {
    if HostLine.Match(line).Some? {
      HostLineStart(line);
    }
  }

  /** A report whose lines hold no newline and end without whitespace is
      read back line by line (nmap-parser.ts:18, 24). */
  lemma LinesOfJoin(lines: seq<string>)
    requires |lines| > 0
    requires forall i :: 0 <= i < |lines| ==> '\n' !in lines[i]
    requires forall i :: 0 <= i < |lines| ==> lines[i] == [] || !IsSpace(lines[i][|lines[i]| - 1])
    ensures Lines(JoinLines(lines)) == lines
    ensures ParseSpec(JoinLines(lines)) == Run(lines).hosts
  {
    SplitJoin(lines);
    forall i | 0 <= i < |lines| ensures TrimEnd(lines[i]) == lines[i] {
      TrimEndOf(lines[i], []);
      assert lines[i] + [] == lines[i];
    }
  }

  /** A line starting with `|` is neither a host line nor a port row. */
  lemma ScriptLineIsNoRow(line: string)
    requires ScriptLine.IsScriptLine(line)
    ensures HostLine.Match(line).None? && PortLine.Match(line).None?
  {
    assert line[0] == '|';
    HostLineNeedsN(line);
    assert RunLength(line, Digit) == 0;
  }

  /** The hosts of `r` are those of `s` with the same `ip` and `os`. */
  predicate SameHosts(s: Scan, r: Scan) {
    |r.hosts| == |s.hosts|
    && forall i :: 0 <= i < |s.hosts| ==> r.hosts[i].ip == s.hosts[i].ip && r.hosts[i].os == s.hosts[i].os
  }

  /** Any other line is a port row, a script line with a current port, or
      no change. */
  lemma OtherLineStep(s: Scan, line: string)
    requires Valid(s) && HostLine.Match(line).None?
    ensures Step(s, line) == s
      || (s.hosts != [] && PortLine.Match(line).Some? && Step(s, line) == AddPort(s, PortLine.Match(line).value))
      || (s.cursor.Some? && ScriptLine.IsScriptLine(line) && Step(s, line) == UpdateScripts(s, line))
  {
  }

  lemma AddPortSameHosts(s: Scan, port: Port)
    requires s.hosts != []
    ensures SameHosts(s, AddPort(s, port))
  {
  }

  lemma UpdateScriptsSameHosts(s: Scan, line: string)
    requires Valid(s) && s.cursor.Some? && ScriptLine.IsScriptLine(line)
    ensures SameHosts(s, UpdateScripts(s, line))
  {
  }

  /** What one line does to the list of hosts. */
  predicate HostsStep(s: Scan, r: Scan, line: string) {
    |r.hosts| == |s.hosts| + |AnnouncedIp(line)|
    && Ips(r.hosts) == Ips(s.hosts) + AnnouncedIp(line)
    && (forall i :: 0 <= i < |s.hosts| ==> r.hosts[i].os == s.hosts[i].os)
    && (HostLine.Match(line).Some? ==> r.hosts[|s.hosts|] == Host(HostLine.Ip(HostLine.Match(line).value), [], None))
  }

  lemma HostLineHosts(s: Scan, line: string)
    requires Valid(s) && HostLine.Match(line).Some?
    ensures HostsStep(s, Step(s, line), line)
  {
    HostLineStep(s, line);
    AppendHostIps(s.hosts, Host(HostLine.Ip(HostLine.Match(line).value), [], None));
  }

  lemma AppendHostIps(hosts: seq<Host>, h: Host)
    ensures Ips(hosts + [h]) == Ips(hosts) + [h.ip]
  {
  }

  lemma SameHostsIps(s: Scan, r: Scan, line: string)
    requires SameHosts(s, r) && HostLine.Match(line).None?
    ensures HostsStep(s, r, line)
  {
    assert Ips(r.hosts) == Ips(s.hosts);
  }

  lemma OtherLineSameHosts(s: Scan, line: string)
    requires Valid(s) && HostLine.Match(line).None?
    ensures SameHosts(s, Step(s, line))
  {
    OtherLineStep(s, line);
    if Step(s, line) != s {
      if s.hosts != [] && PortLine.Match(line).Some? && Step(s, line) == AddPort(s, PortLine.Match(line).value) {
        AddPortSameHosts(s, PortLine.Match(line).value);
      } else {
        UpdateScriptsSameHosts(s, line);
      }
    }
  }

  lemma OtherLineHosts(s: Scan, line: string)
    requires Valid(s) && HostLine.Match(line).None?
    ensures HostsStep(s, Step(s, line), line)
  {
    OtherLineSameHosts(s, line);
    SameHostsIps(s, Step(s, line), line);
  }

  /** One line adds a host exactly when it is a host line, and leaves the
      `ip` and `os` of the hosts before it alone. */
  lemma StepHosts(s: Scan, line: string)
    requires Valid(s)
    ensures HostsStep(s, Step(s, line), line)
  {
    if HostLine.Match(line).Some? {
      HostLineHosts(s, line);
    } else {
      OtherLineHosts(s, line);
    }
  }

  /** Hosts are the host lines, in input order, one each, never merged, and
      no host gets an `os` (nmap-parser.ts:27-35, 89-91). */
  lemma {:induction false} RunHosts(lines: seq<string>)
    ensures Ips(Run(lines).hosts) == HostLineIps(lines)
    ensures forall i :: 0 <= i < |Run(lines).hosts| ==> Run(lines).hosts[i].os.None?
  {
    if lines != [] {
      var init := lines[..|lines| - 1];
      RunHosts(init);
      StepHosts(Run(init), lines[|lines| - 1]);
    }
  }

  /** The number of hosts `parse` returns is the number of host lines. */
  lemma HostCount(text: string)
    ensures |ParseSpec(text)| == |HostLineIps(Lines(text))|
  {
    RunHosts(Lines(text));
  }

  /** Without a host line nothing is recorded: port rows and script lines
      before the first host line are dropped (nmap-parser.ts:37). */
  lemma {:induction false} NoHostLineNoHost(lines: seq<string>)
    requires forall i :: 0 <= i < |lines| ==> HostLine.Match(lines[i]).None?
    ensures Run(lines) == Start
  {
    if lines != [] {
      NoHostLineNoHost(lines[..|lines| - 1]);
    }
  }

  /** A report without a host line gives no host (nmap-parser.ts:37, 89-93). */
  lemma NoHostReport(text: string)
    requires forall i :: 0 <= i < |Lines(text)| ==> HostLine.Match(Lines(text)[i]).None?
    ensures ParseSpec(text) == []
  {
    NoHostLineNoHost(Lines(text));
  }

  /** The empty report has no host. */
  lemma EmptyReport()
    ensures ParseSpec("") == []
  {
    assert SplitLines("") == [""];
    assert Lines("") == [""];
    NoHostLineNoHost([""]);
  }

  /** A port row after a host line appends exactly that port to the host
      being filled and makes it the current port; nothing else changes
      (nmap-parser.ts:41-54). */
  lemma PortRowAppends(s: Scan, line: string)
    requires Valid(s) && s.hosts != [] && HostLine.Match(line).None? && PortLine.Match(line).Some?
    ensures var r := Step(s, line); var last := |s.hosts| - 1; var h := s.hosts[last];
      r.hosts == s.hosts[..last] + [h.(ports := h.ports + [PortLine.Match(line).value])]
      && r.cursor == Some(Loc(last, |h.ports|))
  {
    PortRowIsAddPort(s, line);
    AddPortAppends(s, PortLine.Match(line).value);
  }

  /** The number of ports over all hosts. */
  function PortCount(hosts: seq<Host>): nat {
    if hosts == [] then 0 else PortCount(hosts[..|hosts| - 1]) + |hosts[|hosts| - 1].ports|
  }

  lemma {:induction false} PortCountAppend(hosts: seq<Host>, h: Host)
    ensures PortCount(hosts + [h]) == PortCount(hosts) + |h.ports|
  {
    assert (hosts + [h])[..|hosts|] == hosts;
  }

  /** Replacing a host changes the count by the change in its ports. */
  lemma {:induction false} PortCountUpdate(hosts: seq<Host>, j: nat, h: Host)
    requires j < |hosts|
    ensures PortCount(hosts[j := h]) + |hosts[j].ports| == PortCount(hosts) + |h.ports|
  {
    var last := |hosts| - 1;
    if j < last {
      PortCountUpdate(hosts[..last], j, h);
      assert hosts[j := h][..last] == hosts[..last][j := h];
    } else {
      assert hosts[j := h][..last] == hosts[..last];
    }
  }

  /** Only a port row after a host line adds a port, and it adds one. */
  lemma StepPortCount(s: Scan, line: string)
    requires Valid(s)
    ensures PortCount(Step(s, line).hosts) == PortCount(s.hosts)
      + if HostLine.Match(line).None? && s.hosts != [] && PortLine.Match(line).Some? then 1 else 0
  {
    PortLine.HeaderNeverMatches(line);
    match HostLine.Match(line)
    case Some(c) =>
      PortCountAppend(s.hosts, Host(HostLine.Ip(c), [], None));
    case None =>
      if s.hosts != [] {
        var last := |s.hosts| - 1;
        var h := s.hosts[last];
        if PortLine.Match(line).Some? {
          PortCountUpdate(s.hosts, last, h.(ports := h.ports + [PortLine.Match(line).value]));
        } else if ScriptLine.IsScriptLine(line) && s.cursor.Some? {
          var loc := s.cursor.value;
          var g := s.hosts[loc.host];
          PortCountUpdate(s.hosts, loc.host, WithScripts(g, loc.port, ScriptEffect(g.ports[loc.port].scripts, line)));
        }
      }
  }

  /** The header row and a line with fewer than three whitespace-separated
      fields (`<port>/<protocol>` being one) add no port (nmap-parser.ts:41-44). */
  lemma NonRowsAddNoPort(s: Scan, line: string)
    requires Valid(s)
    requires PortLine.IsHeader(line) || CountFields(line) < 3
    ensures PortCount(Step(s, line).hosts) == PortCount(s.hosts)
  {
    PortLine.HeaderNeverMatches(line);
    PortLine.MatchNeedsThreeFields(line);
    StepPortCount(s, line);
  }

  /** The scripts of the port at `loc`. */
  function ScriptsAt(s: Scan, loc: Loc): ScriptTable.Table
    requires loc.host < |s.hosts| && loc.port < |s.hosts[loc.host].ports|
  {
    s.hosts[loc.host].ports[loc.port].scripts
  }

  /** Every port other than `loc`, and every host's `ip` and port count, are
      as in `s`. */
  predicate OnlyScriptsAtChanged(s: Scan, r: Scan, loc: Loc)
    requires loc.host < |s.hosts| && loc.port < |s.hosts[loc.host].ports|
  {
    |r.hosts| == |s.hosts| && r.cursor == s.cursor
    && (forall i :: 0 <= i < |s.hosts| && i != loc.host ==> r.hosts[i] == s.hosts[i])
    && r.hosts[loc.host].ip == s.hosts[loc.host].ip && r.hosts[loc.host].os == s.hosts[loc.host].os
    && |r.hosts[loc.host].ports| == |s.hosts[loc.host].ports|
    && (forall j :: 0 <= j < |s.hosts[loc.host].ports| && j != loc.port ==> r.hosts[loc.host].ports[j] == s.hosts[loc.host].ports[j])
    && r.hosts[loc.host].ports[loc.port] == s.hosts[loc.host].ports[loc.port].(scripts := r.hosts[loc.host].ports[loc.port].scripts)
  }

  /** A script line with a current port is an update of its scripts. */
  lemma ScriptStepIsUpdate(s: Scan, line: string)
    requires Valid(s) && s.cursor.Some? && ScriptLine.IsScriptLine(line)
    ensures Step(s, line) == UpdateScripts(s, line)
  {
    ScriptLineIsNoRow(line);
  }

  /** The update changes the scripts of the current port and nothing else. */
  lemma UpdateScriptsEffect(s: Scan, line: string)
    requires Valid(s) && s.cursor.Some? && ScriptLine.IsScriptLine(line)
    ensures var r := UpdateScripts(s, line); var loc := s.cursor.value;
      OnlyScriptsAtChanged(s, r, loc)
      && ScriptsAt(r, loc) == ScriptEffect(ScriptsAt(s, loc), line)
  {
  }

  /** A script line with no current port changes nothing (nmap-parser.ts:65). */
  lemma ScriptLineWithoutPort(s: Scan, line: string)
    requires Valid(s) && s.cursor.None? && ScriptLine.IsScriptLine(line)
    ensures Step(s, line) == s
  {
    ScriptLineIsNoRow(line);
  }

  /** A key:value script line assigns the trimmed key in the current port's
      scripts: the key reads back the value, no other key changes, the key
      is appended only if it is new, and nothing outside that port changes
      (nmap-parser.ts:61-73). */
  lemma ScriptLineAssigns(s: Scan, line: string, key: string, value: string)
    requires Valid(s) && s.cursor.Some? && ScriptLine.IsScriptLine(line)
    requires ScriptLine.MatchScript(line) == Some((key, value))
    ensures var r := Step(s, line); var loc := s.cursor.value;
      var before := ScriptsAt(s, loc);
      OnlyScriptsAtChanged(s, r, loc)
      && ScriptsAt(r, loc) == ScriptTable.Put(before, key, value)
      && ScriptTable.Lookup(ScriptsAt(r, loc), key) == Some(value)
      && (forall k :: k != key ==> ScriptTable.Lookup(ScriptsAt(r, loc), k) == ScriptTable.Lookup(before, k))
      && ScriptTable.Keys(ScriptsAt(r, loc))
         == if key in ScriptTable.Keys(before) then ScriptTable.Keys(before) else ScriptTable.Keys(before) + [key]
  {
    ScriptStepIsUpdate(s, line);
    UpdateScriptsEffect(s, line);
  }

  /** A `|` line that is not key:value appends a newline and its text to the
      last key's value of the current port's scripts (`AppendToLast`: the keys
      stay as they are and an empty table stays empty), and changes nothing
      else (nmap-parser.ts:74-83). */
  lemma ContinuationAppends(s: Scan, line: string)
    requires Valid(s) && s.cursor.Some? && ScriptLine.IsScriptLine(line)
    requires ScriptLine.MatchScript(line).None?
    ensures var r := Step(s, line); var loc := s.cursor.value;
      OnlyScriptsAtChanged(s, r, loc)
      && ScriptsAt(r, loc) == ScriptTable.AppendToLast(ScriptsAt(s, loc), "\n" + ScriptLine.ContinuationText(line))
  {
    ScriptStepIsUpdate(s, line);
    UpdateScriptsEffect(s, line);
  }

  /** The current port outlives a host line: a script line right after a new
      host line changes the last port of an earlier host, and the new host
      keeps no ports and no scripts (nmap-parser.ts:28-35, 65). */
  lemma CursorSurvivesHostLine(s: Scan, hostLine: string, line: string)
    requires Valid(s) && s.cursor.Some?
    requires HostLine.Match(hostLine).Some? && ScriptLine.IsScriptLine(line)
    ensures var s1 := Step(s, hostLine); var s2 := Step(s1, line); var loc := s.cursor.value;
      s1.cursor == s.cursor && s2.cursor == s.cursor && loc.host < |s.hosts| == |s2.hosts| - 1
      && s2.hosts[|s.hosts|] == Host(HostLine.Ip(HostLine.Match(hostLine).value), [], None)
      && s2.hosts[..|s.hosts|][loc.host := s.hosts[loc.host]] == s.hosts
      && ScriptsAt(s2, loc) == ScriptEffect(ScriptsAt(s, loc), line)
  {
    HostLineStep(s, hostLine);
    var s1 := Step(s, hostLine);
    var loc := s.cursor.value;
    ScriptStepIsUpdate(s1, line);
    UpdateScriptsEffect(s1, line);
    var s2 := Step(s1, line);
    assert s1.hosts[loc.host] == s.hosts[loc.host];
    assert s2.hosts[..|s.hosts|][loc.host := s.hosts[loc.host]] == s.hosts;
  }

  /** Every port's scripts have unique keys, as an object's keys are. */
  predicate KeysUnique(s: Scan) {
    forall i, j :: 0 <= i < |s.hosts| && 0 <= j < |s.hosts[i].ports| ==> ScriptTable.UniqueKeys(s.hosts[i].ports[j].scripts)
  }

  lemma ScriptEffectKeepsUnique(t: ScriptTable.Table, line: string)
    requires ScriptTable.UniqueKeys(t) && ScriptLine.IsScriptLine(line)
    ensures ScriptTable.UniqueKeys(ScriptEffect(t, line))
  {
    if ScriptLine.MatchScript(line).None? {
      var r := ScriptEffect(t, line);
      assert ScriptTable.Keys(r) == ScriptTable.Keys(t);
      forall i, j | 0 <= i < j < |r| ensures r[i].0 != r[j].0 {
        assert r[i].0 == ScriptTable.Keys(r)[i] == t[i].0;
        assert r[j].0 == ScriptTable.Keys(r)[j] == t[j].0;
      }
    }
  }

  lemma HostLineKeepsUnique(s: Scan, h: Host, c: Option<Loc>)
    requires KeysUnique(s) && h.ports == []
    ensures KeysUnique(Scan(s.hosts + [h], c))
  {
  }

  lemma AddPortKeepsUnique(s: Scan, port: Port)
    requires s.hosts != [] && KeysUnique(s) && port.scripts == []
    ensures KeysUnique(AddPort(s, port))
  {
    var r := AddPort(s, port);
    var last := |s.hosts| - 1;
    forall i, j | 0 <= i < |r.hosts| && 0 <= j < |r.hosts[i].ports|
      ensures ScriptTable.UniqueKeys(r.hosts[i].ports[j].scripts)
    {
      if i == last && j == |s.hosts[last].ports| {
        assert r.hosts[i].ports[j] == port;
      } else {
        assert r.hosts[i].ports[j] == s.hosts[i].ports[j];
      }
    }
  }

  lemma ScriptsKeepUnique(s: Scan, r: Scan, loc: Loc)
    requires loc.host < |s.hosts| && loc.port < |s.hosts[loc.host].ports|
    requires KeysUnique(s) && OnlyScriptsAtChanged(s, r, loc)
    requires ScriptTable.UniqueKeys(ScriptsAt(r, loc))
    ensures KeysUnique(r)
  {
    forall i, j | 0 <= i < |r.hosts| && 0 <= j < |r.hosts[i].ports|
      ensures ScriptTable.UniqueKeys(r.hosts[i].ports[j].scripts)
    {
      if i != loc.host || j != loc.port {
        assert r.hosts[i].ports[j] == s.hosts[i].ports[j];
      }
    }
  }

  /** Each step keeps every script table's keys unique. */
  lemma StepKeepsKeysUnique(s: Scan, line: string)
    requires Valid(s) && KeysUnique(s)
    ensures KeysUnique(Step(s, line))
  {
    match HostLine.Match(line)
    case Some(c) =>
      HostLineStep(s, line);
      HostLineKeepsUnique(s, Host(HostLine.Ip(c), [], None), s.cursor);
    case None =>
      OtherLineStep(s, line);
      var r := Step(s, line);
      if r != s {
        if s.hosts != [] && PortLine.Match(line).Some? && r == AddPort(s, PortLine.Match(line).value) {
          AddPortKeepsUnique(s, PortLine.Match(line).value);
        } else {
          UpdateScriptsEffect(s, line);
          ScriptEffectKeepsUnique(ScriptsAt(s, s.cursor.value), line);
          ScriptsKeepUnique(s, r, s.cursor.value);
        }
      }
  }

  lemma {:induction false} RunKeysUnique(lines: seq<string>)
    ensures KeysUnique(Run(lines))
  {
    if lines != [] {
      RunKeysUnique(lines[..|lines| - 1]);
      StepKeepsKeysUnique(Run(lines[..|lines| - 1]), lines[|lines| - 1]);
    }
  }
}
