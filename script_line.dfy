/**
 * The script-output recognizers (nmap-parser.ts:61-84), for a line that
 * starts with `|`:
 *
 *   plain:        /^\|\s+([^:]+):\s*(.*)/
 *   inline:       /^\|_?\s*([^:]+):\s+(.*)/
 *   continuation: /^\|\s*(.*)/
 *
 * `[^:]+` cannot cross a colon and everything before it in the line is `|`,
 * `_` or whitespace, so in both key:value shapes the key group ends at the
 * FIRST colon `c` of the line, whatever the backtracking does:
 *  - plain matches when `line[1]` is whitespace and `c >= 3` (one character
 *    for `\s+` and one for the key); the key group is `line[1..c]` without
 *    some leading whitespace, so its trim is `Trim(line[1..c])`;
 *  - inline matches when `c >= 2` and whitespace follows the colon; the
 *    optional `_` is part of the key only when nothing else is left for the
 *    key (`|_: v` gives the key `_`).
 * In both, the value group is what `.*` takes after the whitespace following
 * the colon: up to the first line terminator. Neither pattern is anchored at
 * the end.
 */
module ScriptLine {
  import opened Text

  /** The line starts with the script marker (nmap-parser.ts:61). */
  predicate IsScriptLine(line: string) {
    StartsWith(line, "|")
  }

  /** `match[2].trim()`: the value after the colon at `c`. */
  function ValueAfter(line: string, c: nat): (v: string)
    requires c < |line|
    ensures Trimmed(v) && NoTerminator(v)
  {
    var v := Trim(UpToTerminator(TrimStart(line[c + 1..])));
    TrimAll(UpToTerminator(TrimStart(line[c + 1..])), NotTerminator);
    v
  }

  /** `match[1].trim()` for the key group that ends at the colon at `c` and
      starts at `p`. */
  function KeyBetween(line: string, p: nat, c: nat): (k: string)
    requires p <= c < |line| && FirstIndex(line, ':') == Some(c)
    ensures Trimmed(k) && ':' !in k
  {
    TrimChars(line[p..c]);
    assert forall x :: x in line[p..c] ==> x in line[..c];
    Trim(line[p..c])
  }

  /** The inline shape `|_? key: value`, with `key` and `value` trimmed. */
  function MatchInline(line: string): (r: Option<(string, string)>)
    ensures r.Some? ==> Trimmed(r.value.0) && ':' !in r.value.0
    ensures r.Some? ==> Trimmed(r.value.1) && NoTerminator(r.value.1)
  {
    if !IsScriptLine(line) then None
    else match FirstIndex(line, ':')
      case None => None
      case Some(c) =>
        if 2 <= c && c + 1 < |line| && IsSpace(line[c + 1]) then
          var p := if line[1] == '_' && c > 2 then 2 else 1;
          Some((KeyBetween(line, p, c), ValueAfter(line, c)))
        else None
  }

  /** The plain shape `| key: value`. */
  function MatchPlain(line: string): (r: Option<(string, string)>)
    ensures r.Some? ==> Trimmed(r.value.0) && ':' !in r.value.0
    ensures r.Some? ==> Trimmed(r.value.1) && NoTerminator(r.value.1)
  {
    if !IsScriptLine(line) || |line| < 2 || !IsSpace(line[1]) then None
    else match FirstIndex(line, ':')
      case None => None
      case Some(c) =>
        if 3 <= c then Some((KeyBetween(line, 1, c), ValueAfter(line, c))) else None
  }

  /** `scriptInlineMatch || scriptMatch` (nmap-parser.ts:66-70): the trimmed
      key and value of a key:value script line. */
  function MatchScript(line: string): (r: Option<(string, string)>)
    ensures r.Some? ==> Trimmed(r.value.0) && ':' !in r.value.0
    ensures r.Some? ==> Trimmed(r.value.1) && NoTerminator(r.value.1)
    ensures r.Some? <==> MatchInline(line).Some? || MatchPlain(line).Some?
  {
    if MatchInline(line).Some? then MatchInline(line) else MatchPlain(line)
  }

  /** `rawMatch[1].trimEnd()` (nmap-parser.ts:76, 81): the text of a
      continuation line after the marker and the whitespace that follows it. */
  function ContinuationText(line: string): (t: string)
    requires IsScriptLine(line)
    ensures Trimmed(t) && NoTerminator(t)
  {
    var s := UpToTerminator(TrimStart(line[1..]));
    var t := TrimEnd(s);
    assert t == [] || !IsSpace(t[0]) by {
      if t != [] {
        assert t[0] == s[0];
      }
    }
    t
  }

  /** When both shapes match they agree, so the order in which the source
      tries them does not matter: a plain match has whitespace, not `_`, after
      the marker. */
  lemma ShapesAgree(line: string)
    requires MatchInline(line).Some? && MatchPlain(line).Some?
    ensures MatchInline(line) == MatchPlain(line)
  {
    assert IsSpace(line[1]);
  }

  /** A plain-shaped line is a key:value line, with the plain reading. */
  lemma PlainAt(line: string, c: nat)
    requires IsScriptLine(line) && |line| >= 2 && IsSpace(line[1])
    requires FirstIndex(line, ':') == Some(c) && 3 <= c
    ensures MatchScript(line) == Some((KeyBetween(line, 1, c), ValueAfter(line, c)))
  {
    if MatchInline(line).Some? {
      ShapesAgree(line);
    }
  }

  /** The value read back after whitespace is the value written, whatever
      follows a line terminator that ends it. */
  lemma ValueOf(line: string, c: nat, sep: string, value: string, cut: string)
    requires c < |line| && line[c + 1..] == sep + (value + cut)
    requires AllSpace(sep) && Trimmed(value) && NoTerminator(value)
    requires cut == [] || (value != [] && IsLineTerminator(cut[0]))
    ensures ValueAfter(line, c) == value
  {
    if value == [] {
      assert value + cut == [];
    } else {
      assert (value + cut)[0] == value[0];
    }
    TrimStartOf(sep, value + cut);
    RunLengthOf(value, cut, NotTerminator);
    assert (value + cut)[..|value|] == value;
    TrimTrimmed(value);
  }

  /** The key read back between the marker and the first colon is the key
      written, whatever whitespace surrounds it. */
  lemma KeyOf(line: string, p: nat, c: nat, w1: string, key: string, w2: string)
    requires p <= c < |line| && FirstIndex(line, ':') == Some(c)
    requires line[p..c] == w1 + key + w2 && AllSpace(w1) && AllSpace(w2) && Trimmed(key)
    ensures KeyBetween(line, p, c) == key
  {
    TrimOf(w1, key, w2);
  }

  /** Whitespace holds no colon. */
  lemma SpaceHasNoColon(w: string)
    requires AllSpace(w)
    ensures ':' !in w
  {
    assert !IsSpace(':');
  }

  /** The first colon of `<head><key>:<rest>` when `head` and `key` hold none. */
  lemma ColonAfter(line: string, head: string, key: string, rest: string)
    requires line == head + key + ":" + rest
    requires ':' !in head && ':' !in key
    ensures FirstIndex(line, ':') == Some(|head| + |key|)
  {
    assert line[..|head| + |key|] == head + key;
    FirstIndexAt(line, ':', |head| + |key|);
  }

  /** An inline-shaped line with a key after the underscore is a key:value
      line, with the inline reading. */
  lemma InlineAt(line: string, c: nat)
    requires IsScriptLine(line) && |line| >= 2 && line[1] == '_'
    requires FirstIndex(line, ':') == Some(c) && 2 < c && c + 1 < |line| && IsSpace(line[c + 1])
    ensures MatchScript(line) == Some((KeyBetween(line, 2, c), ValueAfter(line, c)))
  {
  }

  /** Where the pieces of `<head><body>:<rest>` are when neither `head` nor
      `body` holds a colon. */
  lemma Layout(line: string, head: string, body: string, rest: string)
    requires line == head + body + ":" + rest
    requires ':' !in head && ':' !in body
    ensures var c := |head| + |body|;
      c < |line| && FirstIndex(line, ':') == Some(c)
      && line[..|head|] == head && line[|head|..c] == body && line[c + 1..] == rest
  {
    ColonAfter(line, head, body, rest);
    assert line[..|head|] == head;
    assert line[|head|..|head| + |body|] == body;
  }

  /** A key surrounded by whitespace, and its first character. */
  lemma Padded(w1: string, key: string, w2: string)
    requires AllSpace(w1) && AllSpace(w2) && ':' !in key && |key| > 0
    ensures ':' !in w1 + key + w2
    ensures (w1 + key + w2)[0] == if w1 != [] then w1[0] else key[0]
  {
    SpaceHasNoColon(w1);
    SpaceHasNoColon(w2);
  }

  /** An inline-shaped line whose key starts right after the marker (no
      underscore taken) is a key:value line, with the inline reading. */
  lemma BareInlineAt(line: string, c: nat)
    requires IsScriptLine(line) && FirstIndex(line, ':') == Some(c)
    requires 2 <= c && c + 1 < |line| && IsSpace(line[c + 1])
    requires !(line[1] == '_' && c > 2)
    ensures MatchScript(line) == Some((KeyBetween(line, 1, c), ValueAfter(line, c)))
  {
    assert MatchInline(line) == Some((KeyBetween(line, 1, c), ValueAfter(line, c)));
  }

  /** The key:value reading of a line from where its pieces are: the key
      group from `p` to the first colon `c` is the key padded with
      whitespace, and the value follows whitespace after the colon. `p` is 2
      when the inline shape takes the underscore, 1 otherwise. */
  lemma KeyValueAt(line: string, p: nat, c: nat, w1: string, key: string, w2: string,
                   sep: string, value: string, cut: string)
    requires IsScriptLine(line) && p <= c < |line| && FirstIndex(line, ':') == Some(c)
    requires line[p..c] == w1 + key + w2 && line[c + 1..] == sep + (value + cut)
    requires AllSpace(w1) && AllSpace(w2) && Trimmed(key)
    requires AllSpace(sep) && Trimmed(value) && NoTerminator(value)
    requires cut == [] || (value != [] && IsLineTerminator(cut[0]))
    requires p == 2 ==> |line| >= 2 && line[1] == '_' && 2 < c && sep != []
    requires p == 1 ==>
      (sep != [] && 2 <= c && !(line[1] == '_' && c > 2)) || (|line| >= 2 && IsSpace(line[1]) && 3 <= c)
    requires p == 1 || p == 2
    ensures MatchScript(line) == Some((key, value))
  {
    KeyOf(line, p, c, w1, key, w2);
    ValueOf(line, c, sep, value, cut);
    if sep != [] {
      assert line[c + 1] == line[c + 1..][0] == sep[0];
    }
    if p == 2 {
      InlineAt(line, c);
    } else if sep != [] && 2 <= c && !(line[1] == '_' && c > 2) {
      BareInlineAt(line, c);
    } else {
      PlainAt(line, c);
    }
  }

  /** The inline round trip (nmap-parser.ts:63, 69-70):
      `|<m><w1><key><w2>:<sep><value><cut>`, where `m` is the optional `_`,
      `w1`, `w2` are whitespace, `sep` is non-empty whitespace and `cut` is
      empty or starts with a line terminator, gives the key and the value
      back. Without the underscore, a key flush against the marker must not
      itself start with `_`, which the pattern would take as the marker. */
  lemma InlineRoundTrip(m: string, w1: string, key: string, w2: string, sep: string, value: string, cut: string)
    requires |key| > 0 && ':' !in key && Trimmed(key)
    requires m == "_" || (m == "" && (w1 != [] || key[0] != '_'))
    requires AllSpace(w1) && AllSpace(w2)
    requires |sep| > 0 && AllSpace(sep)
    requires Trimmed(value) && NoTerminator(value)
    requires cut == [] || (value != [] && IsLineTerminator(cut[0]))
    ensures MatchScript("|" + m + w1 + key + w2 + ":" + sep + value + cut) == Some((key, value))
  {
    var head := "|" + m;
    var body := w1 + key + w2;
    var rest := sep + (value + cut);
    var line := head + body + ":" + rest;
    assert "|" + m + w1 + key + w2 + ":" + sep + value + cut == line;
    Padded(w1, key, w2);
    assert ':' !in head;
    Layout(line, head, body, rest);
    var c := |head| + |body|;
    assert line[0] == head[0] == '|';
    if m == "_" {
      assert line[1] == head[1] == '_';
    } else {
      assert line[1] == line[|head|..c][0] == body[0];
    }
    KeyValueAt(line, |head|, c, w1, key, w2, sep, value, cut);
  }

  /** `|_:<sep><value>`: with nothing else before the colon the underscore is
      the key (`_?` gives it back to `[^:]+`). */
  lemma UnderscoreKey(sep: string, value: string, cut: string)
    requires |sep| > 0 && AllSpace(sep)
    requires Trimmed(value) && NoTerminator(value)
    requires cut == [] || (value != [] && IsLineTerminator(cut[0]))
    ensures MatchScript("|_:" + sep + value + cut) == Some(("_", value))
  {
    var rest := sep + (value + cut);
    var line := "|" + "_" + ":" + rest;
    assert "|_:" + sep + value + cut == line;
    Layout(line, "|", "_", rest);
    assert line[0] == '|';
    var e: string := [];
    assert line[1..2] == e + "_" + e;
    KeyValueAt(line, 1, 2, e, "_", e, sep, value, cut);
  }

  /** The plain round trip (nmap-parser.ts:62-63, 66-70):
      `|<w1><key><w2>:<sep><value><cut>`, with `w1` non-empty whitespace,
      `w2`, `sep` whitespace and `cut` empty or starting with a line
      terminator, gives the key and the value back, whichever shape
      matches. */
  lemma PlainRoundTrip(w1: string, key: string, w2: string, sep: string, value: string, cut: string)
    requires |w1| > 0 && AllSpace(w1) && AllSpace(w2)
    requires |key| > 0 && ':' !in key && Trimmed(key)
    requires AllSpace(sep)
    requires Trimmed(value) && NoTerminator(value)
    requires cut == [] || (value != [] && IsLineTerminator(cut[0]))
    ensures MatchScript("|" + w1 + key + w2 + ":" + sep + value + cut) == Some((key, value))
  {
    var body := w1 + key + w2;
    var rest := sep + (value + cut);
    var line := "|" + body + ":" + rest;
    assert "|" + w1 + key + w2 + ":" + sep + value + cut == line;
    Padded(w1, key, w2);
    Layout(line, "|", body, rest);
    var c := 1 + |body|;
    assert line[0] == '|';
    assert line[1] == line[1..c][0] == body[0];
    KeyValueAt(line, 1, c, w1, key, w2, sep, value, cut);
  }

  /** Without whitespace after the first colon, the inline shape fails. */
  lemma NotInline(line: string, c: nat)
    requires FirstIndex(line, ':') == Some(c)
    requires c + 1 >= |line| || !IsSpace(line[c + 1])
    ensures MatchInline(line).None?
  {
  }

  /** Without whitespace after the marker, the plain shape fails. */
  lemma NotPlain(line: string)
    requires |line| >= 2 && !IsSpace(line[1])
    ensures MatchPlain(line).None?
  {
  }

  /** Without a colon, neither shape matches. */
  lemma NoColonNeither(line: string)
    requires FirstIndex(line, ':').None?
    ensures MatchInline(line).None? && MatchPlain(line).None?
  {
  }

  /** A marker line without a colon is never a key:value line: it is a
      continuation. */
  lemma NoColonIsContinuation(line: string)
    requires ':' !in line
    ensures MatchScript(line).None?
  {
    assert FirstIndex(line, ':').None?;
    NoColonNeither(line);
  }

  /** `|_<key>:<value>` with no whitespace after the colon matches neither
      shape: the underscore form needs whitespace after the colon and the
      plain form after the marker. */
  lemma UnderscoreWithoutSpaceIsContinuation(key: string, value: string)
    requires ':' !in key
    requires value == [] || !IsSpace(value[0])
    ensures MatchScript("|_" + key + ":" + value).None?
  {
    var line := "|_" + key + ":" + value;
    var c := |key| + 2;
    ColonAfter(line, "|_", key, value);
    assert line[1] == '_';
    if c + 1 < |line| {
      assert line[c + 1] == value[0];
    }
    NotInline(line, c);
    NotPlain(line);
  }

  /** The continuation round trip: the marker and the whitespace after it
      are dropped, the rest is kept (nmap-parser.ts:76, 81). */
  lemma ContinuationRoundTrip(sep: string, text: string)
    requires AllSpace(sep) && Trimmed(text) && NoTerminator(text)
    ensures ContinuationText("|" + sep + text) == text
  {
    var line := "|" + sep + text;
    assert line[1..] == sep + text;
    TrimStartOf(sep, text);
    UpToTerminatorAll(text);
    TrimEndOf(text, []);
    assert text + [] == text;
  }
}
