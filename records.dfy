/**
 * The records the parser produces (nmap-parser.ts:1-14).
 */
module Records {
  import opened Text
  import ScriptTable

  /** One row of a port table. The source declares `version` and `scripts`
      optional, but the parser always sets both (nmap-parser.ts:50-51), so
      here they are plain fields: `version` is `""` when the row has none and
      `scripts` starts empty. */
  datatype Port = Port(
    portId: nat,
    protocol: string,
    state: string,
    service: string,
    version: string,
    scripts: ScriptTable.Table)

  /** One scanned machine. `os` is declared but no recognizer assigns it. */
  datatype Host = Host(ip: string, ports: seq<Port>, os: Option<string>)
}
