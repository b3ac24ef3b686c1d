/**
 * Concrete lines of `nmap -sV` output and what each recognizer makes of
 * them, derived from the general lemmas. Each example names its line and
 * the expected pieces as parameters fixed by its precondition.
 */
module LineExamples {
  import opened Text
  import opened Records
  import HostLine
  import PortLine
  import ScriptLine

  /** The pieces of the line of `AddressPreferred`. */
  lemma AddressLine(line: string, name: string, address: string)
    requires line == "Nmap scan report for host.example (10.0.0.5)"
    requires name == "host.example" && address == "10.0.0.5"
    ensures line == HostLine.Prefix + name + " " + "(" + address + ")"
    ensures NoSpace(name) && NoTerminator(address)
  {
    assert HostLine.Prefix == "Nmap scan report for ";
  }

  /** The address in parentheses is preferred over the host name. */
  lemma AddressPreferred(line: string, name: string, address: string)
    requires line == "Nmap scan report for host.example (10.0.0.5)"
    requires name == "host.example" && address == "10.0.0.5"
    ensures HostLine.Match(line) == Some(HostLine.Captures(name, Some(address)))
    ensures HostLine.Ip(HostLine.Match(line).value) == address
  {
    AddressLine(line, name, address);
    HostLine.NameAndAddress(name, " ", address);
  }

  /** A bare address is its own ip. */
  lemma BareAddress(line: string, name: string)
    requires line == "Nmap scan report for 192.168.1.1" && name == "192.168.1.1"
    ensures HostLine.Match(line) == Some(HostLine.Captures(name, None))
    ensures HostLine.Ip(HostLine.Match(line).value) == name
  {
    assert line == HostLine.Prefix + name;
    HostLine.NameOnly(name);
  }

  /** The name group is lazy: the address runs from the first `(` after
      whitespace to the `)` that ends the line. */
  lemma LazyName(line: string, name: string, address: string)
    requires line == "Nmap scan report for a (b) (c)" && name == "a" && address == "b) (c"
    ensures HostLine.Match(line) == Some(HostLine.Captures(name, Some(address)))
  {
    assert line == HostLine.Prefix + name + " " + "(" + address + ")";
    HostLine.NameAndAddress(name, " ", address);
  }

  /** Empty parentheses after an empty name give an empty ip. */
  lemma EmptyIp(line: string)
    requires line == "Nmap scan report for  ()"
    ensures HostLine.Match(line) == Some(HostLine.Captures("", Some("")))
    ensures HostLine.Ip(HostLine.Match(line).value) == ""
  {
    var e: string := [];
    assert line == HostLine.Prefix + e + " " + "(" + e + ")";
    HostLine.NameAndAddress(e, " ", e);
  }

  /** A row without a version. */
  lemma ClosedSsh(line: string, protocol: string, state: string, service: string)
    requires line == "22/tcp closed ssh"
    requires protocol == "tcp" && state == "closed" && service == "ssh"
    ensures PortLine.Match(line) == Some(Port(22, protocol, state, service, "", []))
  {
    var digits := "22";
    var p := PortLine.Pieces(digits, protocol, " ", state, " ", service, None);
    assert line == PortLine.Render(p);
    assert PortLine.DecimalValue(digits) == 22 by {
      assert digits[..1] == "2" && "2"[..0] == [];
    }
    PortLine.MatchRender(p);
  }

  /** The pieces of `OpenHttpWithVersion` are ones the pattern can produce. */
  lemma VersionPieces(p: PortLine.Pieces)
    requires p == PortLine.Pieces("80", "tcp", " ", "open", " ", "http", Some((" ", "nginx 1.18.0")))
    ensures PortLine.WellFormed(p) && PortLine.DecimalValue(p.digits) == 80
  {
    assert p.digits[..1] == "8" && "8"[..0] == [];
  }

  /** The pieces of `OpenHttpWithVersion` spell its line. */
  lemma VersionRow(line: string, p: PortLine.Pieces)
    requires line == "80/tcp open http nginx 1.18.0"
    requires p == PortLine.Pieces("80", "tcp", " ", "open", " ", "http", Some((" ", "nginx 1.18.0")))
    ensures line == PortLine.Render(p)
  {
  }

  /** Everything after the service is the version, spaces included. */
  lemma OpenHttpWithVersion(line: string, protocol: string, state: string, service: string, version: string)
    requires line == "80/tcp open http nginx 1.18.0"
    requires protocol == "tcp" && state == "open" && service == "http" && version == "nginx 1.18.0"
    ensures PortLine.Match(line) == Some(Port(80, protocol, state, service, version, []))
  {
    var p := PortLine.Pieces("80", protocol, " ", state, " ", service, Some((" ", version)));
    VersionPieces(p);
    VersionRow(line, p);
    PortLine.MatchRender(p);
  }

  /** The table header is no port. */
  lemma HeaderRow(line: string)
    requires line == "PORT   STATE SERVICE VERSION"
    ensures PortLine.Match(line).None?
  {
    assert StartsWith(line, "PORT");
    PortLine.HeaderNeverMatches(line);
  }

  /** The pieces of the line of `OpenFiltered`. */
  lemma FilteredRow(line: string, head: string, state: string, rest: string)
    requires line == "80/tcp open|filtered http"
    requires head == "80/tcp" && state == "open|filtered" && rest == " http"
    ensures line == head + " " + state + rest
    ensures |head| > 0 && NoSpace(head) && NoSpace(state) && 4 < |state| && !IsWordChar(state[4])
    ensures rest == [] || IsSpace(rest[0])
  {
  }

  /** A state with `|` in it is outside the state class: the row is skipped. */
  lemma OpenFiltered(line: string, head: string, state: string, rest: string)
    requires line == "80/tcp open|filtered http"
    requires head == "80/tcp" && state == "open|filtered" && rest == " http"
    ensures PortLine.Match(line).None?
  {
    FilteredRow(line, head, state, rest);
    PortLine.StateOutsideClassNeverMatches(head, " ", state, rest, 4);
  }

  /** The `|_` form of the last line of a script's output. */
  lemma InlineTitle(line: string, key: string, value: string)
    requires line == "|_http-title: Welcome" && key == "http-title" && value == "Welcome"
    ensures ScriptLine.MatchScript(line) == Some((key, value))
  {
    var e: string := [];
    assert line == "|" + "_" + e + key + e + ":" + " " + value + e;
    ScriptLine.InlineRoundTrip("_", e, key, e, " ", value, e);
  }

  /** The `| ` form of a script's first line. */
  lemma PlainKey(line: string, key: string, value: string)
    requires line == "| ssl-cert: Subject" && key == "ssl-cert" && value == "Subject"
    ensures ScriptLine.MatchScript(line) == Some((key, value))
  {
    var e: string := [];
    assert line == "|" + " " + key + e + ":" + " " + value + e;
    ScriptLine.PlainRoundTrip(" ", key, e, " ", value, e);
  }

  /** A key with nothing after its colon has the empty value. */
  lemma EmptyValue(line: string, key: string)
    requires line == "| ssl-cert:" && key == "ssl-cert"
    ensures ScriptLine.MatchScript(line) == Some((key, ""))
  {
    var e: string := [];
    assert line == "|" + " " + key + e + ":" + e + e + e;
    ScriptLine.PlainRoundTrip(" ", key, e, e, e, e);
  }

  /** The pieces of the line of `ContinuedText`. */
  lemma ContinuationLine(line: string, sep: string, text: string)
    requires line == "|   continued text" && sep == "   " && text == "continued text"
    ensures line == "|" + sep + text && ':' !in line
    ensures AllSpace(sep) && Trimmed(text) && NoTerminator(text)
  {
  }

  /** An indented line without a colon continues the last key. */
  lemma ContinuedText(line: string, text: string)
    requires line == "|   continued text" && text == "continued text"
    ensures ScriptLine.MatchScript(line).None?
    ensures ScriptLine.IsScriptLine(line) && ScriptLine.ContinuationText(line) == text
  {
    var sep := "   ";
    ContinuationLine(line, sep, text);
    ScriptLine.NoColonIsContinuation(line);
    ScriptLine.ContinuationRoundTrip(sep, text);
  }

  /** An indented `key: value` under a script is a key of its own, not a
      nested one. */
  lemma IndentedKey(line: string, key: string, value: string)
    requires line == "|   Subject: x" && key == "Subject" && value == "x"
    ensures ScriptLine.MatchScript(line) == Some((key, value))
  {
    var sep := "   ";
    var e: string := [];
    assert line == "|" + sep + key + e + ":" + " " + value + e;
    ScriptLine.PlainRoundTrip(sep, key, e, " ", value, e);
  }

  /** A `|_` line without a colon continues the last key, underscore kept. */
  lemma UnderscoreContinuation(line: string, text: string)
    requires line == "|_done" && text == "_done"
    ensures ScriptLine.MatchScript(line).None?
    ensures ScriptLine.IsScriptLine(line) && ScriptLine.ContinuationText(line) == text
  {
    var e: string := [];
    assert line == "|" + e + text;
    ScriptLine.NoColonIsContinuation(line);
    ScriptLine.ContinuationRoundTrip(e, text);
  }

  /** Whitespace before the colon is not part of the key. */
  lemma SpacedKey(line: string, key: string, value: string)
    requires line == "| key : v" && key == "key" && value == "v"
    ensures ScriptLine.MatchScript(line) == Some((key, value))
  {
    var e: string := [];
    assert line == "|" + " " + key + " " + ":" + " " + value + e;
    ScriptLine.PlainRoundTrip(" ", key, " ", " ", value, e);
  }

  /** `|_: x` has the key `_`. */
  lemma UnderscoreIsKey(line: string, value: string)
    requires line == "|_: x" && value == "x"
    ensures ScriptLine.MatchScript(line) == Some(("_", value))
  {
    var e: string := [];
    assert line == "|_:" + " " + value + e;
    ScriptLine.UnderscoreKey(" ", value, e);
  }

  /** A carriage return ends the value: `.` does not match it. */
  lemma ValueCutAtReturn(line: string, key: string, value: string, cut: string)
    requires line == "|_k: v\rjunk" && key == "k" && value == "v" && cut == "\rjunk"
    ensures ScriptLine.MatchScript(line) == Some((key, value))
  {
    var e: string := [];
    assert line == "|" + "_" + e + key + e + ":" + " " + value + cut;
    ScriptLine.InlineRoundTrip("_", e, key, e, " ", value, cut);
  }
}
