/**
 * `NmapParser.parse` (nmap-parser.ts:16-95): one forward pass over the lines
 * of the report with two cursors, the host being filled and the port that
 * receives script output.
 *
 * The specification is a fold: `Step` is the effect of one trimmed line on
 * a `Scan`, `Run` folds it over the lines, and `ParseSpec` is the list of
 * hosts left at the end. In a `Scan` the host being filled is the last of
 * `hosts` (it is pushed early rather than at the next host line, which
 * changes nothing about the final list), and the port cursor is a location
 * `(host, port)` in `hosts`: the source keeps a reference to the `Port`
 * object, which stays valid, and keeps designating the same port, after its
 * host has been pushed and a new host started. `Parse` is the loop itself,
 * with `hosts`, `currentHost` and `currentPort` as local variables, proved
 * to compute `ParseSpec`.
 */
module NmapParser {
  import opened Text
  import opened Records
  import ScriptTable
  import HostLine
  import PortLine
  import ScriptLine

  /** Where the current port is: `hosts[host].ports[port]`. */
  datatype Loc = Loc(host: nat, port: nat)

  /** The state of the pass after some lines. */
  datatype Scan = Scan(hosts: seq<Host>, cursor: Option<Loc>)

  const Start := Scan([], None)

  /** The cursor designates an existing port. */
  predicate Valid(s: Scan) {
    s.cursor.Some? ==>
      s.cursor.value.host < |s.hosts| && s.cursor.value.port < |s.hosts[s.cursor.value.host].ports|
  }

  /** `h` with the scripts of its `j`-th port replaced by `t`. */
  function WithScripts(h: Host, j: nat, t: ScriptTable.Table): (r: Host)
    requires j < |h.ports|
    ensures r.ip == h.ip && r.os == h.os && |r.ports| == |h.ports|
    ensures r.ports[j] == h.ports[j].(scripts := t)
    ensures forall k :: 0 <= k < |h.ports| && k != j ==> r.ports[k] == h.ports[k]
  {
    h.(ports := h.ports[j := h.ports[j].(scripts := t)])
  }

  /** What a script line does to the scripts of the current port
      (nmap-parser.ts:66-84): a key:value line assigns the key, any other
      `|` line is a continuation of the last key. */
  function ScriptEffect(t: ScriptTable.Table, line: string): (r: ScriptTable.Table)
    requires ScriptLine.IsScriptLine(line)
    ensures ScriptLine.MatchScript(line).Some? ==>
      var (key, value) := ScriptLine.MatchScript(line).value;
      ScriptTable.Lookup(r, key) == Some(value)
      && forall k :: k != key ==> ScriptTable.Lookup(r, k) == ScriptTable.Lookup(t, k)
    ensures ScriptLine.MatchScript(line).None? ==>
      ScriptTable.Keys(r) == ScriptTable.Keys(t)
      && (t != [] ==>
            r[..|t| - 1] == t[..|t| - 1] && r[|t| - 1].1 == t[|t| - 1].1 + "\n" + ScriptLine.ContinuationText(line))
  {
    match ScriptLine.MatchScript(line)
    case Some((key, value)) => ScriptTable.Put(t, key, value)
    case None => ScriptTable.AppendToLast(t, "\n" + ScriptLine.ContinuationText(line))
  }

  /** A port row: the port is pushed onto the host being filled and becomes
      the current port (nmap-parser.ts:45-53). */
  function AddPort(s: Scan, port: Port): (r: Scan)
    requires s.hosts != []
    ensures Valid(r)
  {
    var last := |s.hosts| - 1;
    var h := s.hosts[last];
    Scan(s.hosts[last := h.(ports := h.ports + [port])], Some(Loc(last, |h.ports|)))
  }

  /** A script line with a current port: the scripts of that port change,
      wherever its host is (nmap-parser.ts:65-84). */
  function UpdateScripts(s: Scan, line: string): (r: Scan)
    requires Valid(s) && s.cursor.Some? && ScriptLine.IsScriptLine(line)
    ensures Valid(r)
  {
    var loc := s.cursor.value;
    var h := s.hosts[loc.host];
    Scan(s.hosts[loc.host := WithScripts(h, loc.port, ScriptEffect(h.ports[loc.port].scripts, line))], s.cursor)
  }

  /** The effect of one trimmed line (nmap-parser.ts:27-86), trying the
      recognizers in the source's order. */
  function Step(s: Scan, line: string): (r: Scan)
    requires Valid(s)
    ensures Valid(r)
  {
    match HostLine.Match(line)
    case Some(c) => Scan(s.hosts + [Host(HostLine.Ip(c), [], None)], s.cursor)
    case None =>
      if s.hosts == [] then s
      else
        var port := PortLine.Match(line);
        if port.Some? && !PortLine.IsHeader(line) then AddPort(s, port.value)
        else if ScriptLine.IsScriptLine(line) && s.cursor.Some? then UpdateScripts(s, line)
        else s
  }

  /** The pass over `lines`. */
  function Run(lines: seq<string>): (r: Scan)
    ensures Valid(r)
  {
    if lines == [] then Start
    else Step(Run(lines[..|lines| - 1]), lines[|lines| - 1])
  }

  /** `rawText.split('\n')` with every line passed through `trimEnd`
      (nmap-parser.ts:18, 24). */
  function Lines(text: string): (lines: seq<string>)
    ensures |lines| == |SplitLines(text)|
    ensures forall i :: 0 <= i < |lines| ==>
      StartsWith(SplitLines(text)[i], lines[i])
      && AllSpace(SplitLines(text)[i][|lines[i]|..])
      && (lines[i] == [] || !IsSpace(lines[i][|lines[i]| - 1]))
  {
    var pieces := SplitLines(text);
    seq(|pieces|, i requires 0 <= i < |pieces| => TrimEnd(pieces[i]))
  }

  /** The result of `parse(text)`. */
  function ParseSpec(text: string): seq<Host> {
    Run(Lines(text)).hosts
  }

  function OptSeq(h: Option<Host>): seq<Host> {
    if h.Some? then [h.value] else []
  }

  /** `NmapParser.parse` (nmap-parser.ts:17-94). */
  method Parse(rawText: string) returns (hosts: seq<Host>)
    ensures hosts == ParseSpec(rawText)
  {
    var lines := SplitLines(rawText);
    ghost var trimmed := Lines(rawText);
    hosts := [];
    var currentHost: Option<Host> := None;
    var currentPort: Option<Loc> := None;
    var i := 0;
    while i < |lines|
      invariant 0 <= i <= |lines|
      invariant currentHost.None? ==> hosts == [] && currentPort.None?
      invariant Run(trimmed[..i]) == Scan(hosts + OptSeq(currentHost), currentPort)
    {
      var line := TrimEnd(lines[i]);
      assert line == trimmed[i];
      RunSnoc(trimmed, i);
      hosts, currentHost, currentPort := ParseLine(hosts, currentHost, currentPort, line);
      i := i + 1;
    }
    assert trimmed[..i] == trimmed;
    if currentHost.Some? {
      hosts := hosts + [currentHost.value];
    }
  }

  /** The body of the loop of `parse` for one trimmed line
      (nmap-parser.ts:27-86): `hosts` holds the finished hosts,
      `currentHost` the one being filled, and `currentPort` designates a port
      of either. */
  method ParseLine(hosts: seq<Host>, currentHost: Option<Host>, currentPort: Option<Loc>, line: string)
    returns (hosts': seq<Host>, currentHost': Option<Host>, currentPort': Option<Loc>)
    requires currentHost.None? ==> hosts == [] && currentPort.None?
    requires Valid(Scan(hosts + OptSeq(currentHost), currentPort))
    ensures currentHost'.None? ==> hosts' == [] && currentPort'.None?
    ensures Scan(hosts' + OptSeq(currentHost'), currentPort') == Step(Scan(hosts + OptSeq(currentHost), currentPort), line)
  {
    hosts', currentHost', currentPort' := hosts, currentHost, currentPort;
    var hostMatch := HostLine.Match(line);
    if hostMatch.Some? {
      HostLineStep(Scan(hosts + OptSeq(currentHost), currentPort), line);
      if currentHost.Some? {
        hosts' := hosts + [currentHost.value];
      }
      currentHost' := Some(Host(HostLine.Ip(hostMatch.value), [], None));
    } else if currentHost.Some? {
      var h := currentHost.value;
      var portMatch := PortLine.Match(line);
      var isPortHeader := PortLine.IsHeader(line);
      if portMatch.Some? && !isPortHeader {
        PortStep(hosts, h, currentPort, line);
        currentPort' := Some(Loc(|hosts|, |h.ports|));
        currentHost' := Some(h.(ports := h.ports + [portMatch.value]));
      } else if ScriptLine.IsScriptLine(line) && currentPort.Some? {
        var loc := currentPort.value;
        var target := if loc.host < |hosts| then hosts[loc.host] else h;
        ScriptStep(hosts, h, currentPort, line);
        var updated := WithScripts(target, loc.port, ScriptEffect(target.ports[loc.port].scripts, line));
        if loc.host < |hosts| {
          hosts' := hosts[loc.host := updated];
        } else {
          currentHost' := Some(updated);
        }
      } else {
        OtherStep(hosts, h, currentPort, line);
      }
    }
  }

  /** One more line is one more step. */
  lemma RunSnoc(lines: seq<string>, i: nat)
    requires i < |lines|
    ensures Run(lines[..i + 1]) == Step(Run(lines[..i]), lines[i])
  {
    assert lines[..i + 1][..i] == lines[..i];
  }

  /** A host line appends an empty host with the line's ip and keeps the
      cursor (nmap-parser.ts:28-34): the host being filled counts as pushed
      already. */
  lemma HostLineStep(s: Scan, line: string)
    requires Valid(s) && HostLine.Match(line).Some?
    ensures Step(s, line) == Scan(s.hosts + [Host(HostLine.Ip(HostLine.Match(line).value), [], None)], s.cursor)
  {
  }

  /** A port row with a host being filled. */
  lemma PortStep(hosts: seq<Host>, h: Host, cursor: Option<Loc>, line: string)
    requires Valid(Scan(hosts + OptSeq(Some(h)), cursor)) && HostLine.Match(line).None?
    requires PortLine.Match(line).Some? && !PortLine.IsHeader(line)
    ensures Step(Scan(hosts + OptSeq(Some(h)), cursor), line)
      == Scan(hosts + OptSeq(Some(h.(ports := h.ports + [PortLine.Match(line).value]))), Some(Loc(|hosts|, |h.ports|)))
  {
    var s := Scan(hosts + [h], cursor);
    PortRowIsAddPort(s, line);
    AddPortAppends(s, PortLine.Match(line).value);
    assert s.hosts[..|hosts|] == hosts;
  }

  /** A port row after a host line adds its port: the header test never
      rejects a row. */
  lemma PortRowIsAddPort(s: Scan, line: string)
    requires Valid(s) && s.hosts != [] && HostLine.Match(line).None? && PortLine.Match(line).Some?
    ensures Step(s, line) == AddPort(s, PortLine.Match(line).value)
  {
    PortLine.HeaderNeverMatches(line);
  }

  /** `AddPort` appends the port to the last host and points the cursor at it. */
  lemma AddPortAppends(s: Scan, port: Port)
    requires s.hosts != []
    ensures var r := AddPort(s, port); var last := |s.hosts| - 1; var h := s.hosts[last];
      r.hosts == s.hosts[..last] + [h.(ports := h.ports + [port])]
      && r.cursor == Some(Loc(last, |h.ports|))
  {
    var last := |s.hosts| - 1;
    var h := s.hosts[last];
    assert s.hosts[last := h.(ports := h.ports + [port])] == s.hosts[..last] + [h.(ports := h.ports + [port])];
  }

  /** A script line with a current port: the port's host is either one
      already pushed or the one being filled. */
  lemma ScriptStep(hosts: seq<Host>, h: Host, cursor: Option<Loc>, line: string)
    requires Valid(Scan(hosts + OptSeq(Some(h)), cursor)) && HostLine.Match(line).None?
    requires !(PortLine.Match(line).Some? && !PortLine.IsHeader(line))
    requires ScriptLine.IsScriptLine(line) && cursor.Some?
    ensures var loc := cursor.value;
      var target := if loc.host < |hosts| then hosts[loc.host] else h;
      loc.port < |target.ports| &&
      var updated := WithScripts(target, loc.port, ScriptEffect(target.ports[loc.port].scripts, line));
      Step(Scan(hosts + OptSeq(Some(h)), cursor), line)
      == Scan(if loc.host < |hosts| then hosts[loc.host := updated] + OptSeq(Some(h)) else hosts + OptSeq(Some(updated)), cursor)
  {
    var s := Scan(hosts + [h], cursor);
    assert Step(s, line) == UpdateScripts(s, line);
    var loc := cursor.value;
    var target := if loc.host < |hosts| then hosts[loc.host] else h;
    assert s.hosts[loc.host] == target;
    var updated := WithScripts(target, loc.port, ScriptEffect(target.ports[loc.port].scripts, line));
    UpdateAppended(hosts, h, loc.host, updated);
  }

  lemma UpdateAppended(hosts: seq<Host>, h: Host, j: nat, x: Host)
    requires j <= |hosts|
    ensures (hosts + [h])[j := x] == if j < |hosts| then hosts[j := x] + [h] else hosts + [x]
  {
    if j < |hosts| {
      assert (hosts + [h])[j := x] == hosts[j := x] + [h];
    } else {
      assert (hosts + [h])[j := x] == hosts + [x];
    }
  }

  /** Any other line leaves the state as it is. */
  lemma OtherStep(hosts: seq<Host>, h: Host, cursor: Option<Loc>, line: string)
    requires Valid(Scan(hosts + OptSeq(Some(h)), cursor)) && HostLine.Match(line).None?
    requires !(PortLine.Match(line).Some? && !PortLine.IsHeader(line))
    requires !(ScriptLine.IsScriptLine(line) && cursor.Some?)
    ensures Step(Scan(hosts + OptSeq(Some(h)), cursor), line) == Scan(hosts + OptSeq(Some(h)), cursor)
  {
  }
}
