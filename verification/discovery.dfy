/**
 * The discovery file a local server publishes once its sockets are bound:
 * the session key, the control ports and the listening ports, separated by
 * `;`, with `:` between the ports of one field.
 */
module Discovery {
  import opened Wrappers
  import opened JavaText
  import opened TypeCatalogue
  import Startup

  const PortSplitter := ":"
  const FieldSeparator := ";"
  const TmpFileName := "J4RTmpFile"
  const LockSuffix := ".lock"

  /** The realized listening ports, one per call receiver, in receiver order, with `:` between them. */
  method RealizedListeningPorts(receiverPorts: seq<int>) returns (realized: string)
    ensures realized == Join(IntTexts(receiverPorts), PortSplitter)
  {
    realized := "";
    for i := 0 to |receiverPorts|
      invariant realized == Join(IntTexts(receiverPorts[..i]), PortSplitter)
      invariant realized == "" <==> i == 0
    {
      var text := IntToString(receiverPorts[i]);
      IntToStringAlphabet(receiverPorts[i]);
      assert IntTexts(receiverPorts[..i + 1]) == IntTexts(receiverPorts[..i]) + [text];
      if realized != "" {
        JoinAppend(IntTexts(receiverPorts[..i]), text, PortSplitter);
        realized := realized + PortSplitter;
      } else {
        assert IntTexts(receiverPorts[..i]) == [];
      }
      realized := realized + text;
    }
    assert receiverPorts[..|receiverPorts|] == receiverPorts;
  }

  /** Three fields separated by `;`. */
  function Fields(a: string, b: string, c: string): string {
    a + FieldSeparator + b + FieldSeparator + c
  }

  /** The content of the gateway servers: `key;backdoorPort:gcPort;listeningPorts`. */
  function GatewayContent(key: int, backdoorPort: int, gcPort: int, receiverPorts: seq<int>): string {
    Fields(IntToString(key), IntToString(backdoorPort) + PortSplitter + IntToString(gcPort), Join(IntTexts(receiverPorts), PortSplitter))
  }

  /** The content of the local server: `key;backdoorPort;listeningPorts`. */
  function LocalContent(key: int, backdoorPort: int, receiverPorts: seq<int>): string {
    Fields(IntToString(key), IntToString(backdoorPort), Join(IntTexts(receiverPorts), PortSplitter))
  }

  /** Printed ports joined with `:` hold no `;`. */
  lemma PortsTextAvoidsSeparator(ports: seq<int>)
    ensures ';' !in Join(IntTexts(ports), PortSplitter)
  {
    forall k | 0 <= k < |ports|
      ensures ';' !in IntTexts(ports)[k]
    {
      IntToStringAlphabet(ports[k]);
    }
    JoinAvoids(IntTexts(ports), PortSplitter, ';');
  }

  /** Three fields separated by `;` split back into those fields when none holds `;` and the last is not empty. */
  lemma ThreeFields(a: string, b: string, c: string)
    requires ';' !in a && ';' !in b && ';' !in c && c != ""
    ensures Split(Fields(a, b, c), FieldSeparator) == [a, b, c]
  {
    assert [a, b, c][1..] == [b, c] && [b, c][1..] == [c];
    assert Join([b, c], FieldSeparator) == b + FieldSeparator + c;
    assert Join([a, b, c], FieldSeparator) == a + FieldSeparator + b + FieldSeparator + c;
    SplitJoin([a, b, c], FieldSeparator);
  }

  /** The gateway content splits into the key, the two control ports and the listening ports. */
  lemma GatewayContentFields(key: int, backdoorPort: int, gcPort: int, receiverPorts: seq<int>)
    requires receiverPorts != []
    ensures Split(GatewayContent(key, backdoorPort, gcPort, receiverPorts), FieldSeparator) ==
            [IntToString(key), Join(IntTexts([backdoorPort, gcPort]), PortSplitter), Join(IntTexts(receiverPorts), PortSplitter)]
  {
    var controls := IntToString(backdoorPort) + PortSplitter + IntToString(gcPort);
    assert controls == Join(IntTexts([backdoorPort, gcPort]), PortSplitter);
    PortsTextAvoidsSeparator([backdoorPort, gcPort]);
    PortsTextAvoidsSeparator(receiverPorts);
    IntToStringAlphabet(key);
    var listening := Join(IntTexts(receiverPorts), PortSplitter);
    JoinEndsWithLast(IntTexts(receiverPorts), PortSplitter);
    IntToStringAlphabet(receiverPorts[|receiverPorts| - 1]);
    ThreeFields(IntToString(key), controls, listening);
  }

  /**
   * The gateway content splits into three fields; the first parses back to
   * the key, the second to the backdoor and garbage-collection ports, the
   * third to the listening ports, in order.
   */
  lemma GatewayContentReadBack(key: int, backdoorPort: int, gcPort: int, receiverPorts: seq<int>)
    requires receiverPorts != [] && IsInt32(key) && IsInt32(backdoorPort) && IsInt32(gcPort)
    requires forall k :: 0 <= k < |receiverPorts| ==> IsInt32(receiverPorts[k])
    ensures var fields := Split(GatewayContent(key, backdoorPort, gcPort, receiverPorts), FieldSeparator);
      |fields| == 3 && ParseInt(fields[0]) == Some(key) &&
      Startup.PortsOf(fields[1]) == Ok([backdoorPort, gcPort]) && Startup.PortsOf(fields[2]) == Ok(receiverPorts)
  {
    GatewayContentFields(key, backdoorPort, gcPort, receiverPorts);
    ParseIntToString(key);
    Startup.PortsRoundTrip([backdoorPort, gcPort]);
    Startup.PortsRoundTrip(receiverPorts);
  }

  /** The local content splits into three fields: the key, the backdoor port and the listening ports. */
  lemma LocalContentReadBack(key: int, backdoorPort: int, receiverPorts: seq<int>)
    requires receiverPorts != [] && IsInt32(key) && IsInt32(backdoorPort)
    requires forall k :: 0 <= k < |receiverPorts| ==> IsInt32(receiverPorts[k])
    ensures var fields := Split(LocalContent(key, backdoorPort, receiverPorts), FieldSeparator);
      |fields| == 3 && ParseInt(fields[0]) == Some(key) && ParseInt(fields[1]) == Some(backdoorPort) &&
      Startup.PortsOf(fields[2]) == Ok(receiverPorts)
  {
    PortsTextAvoidsSeparator(receiverPorts);
    IntToStringAlphabet(key);
    IntToStringAlphabet(backdoorPort);
    var listening := Join(IntTexts(receiverPorts), PortSplitter);
    JoinEndsWithLast(IntTexts(receiverPorts), PortSplitter);
    IntToStringAlphabet(receiverPorts[|receiverPorts| - 1]);
    ThreeFields(IntToString(key), IntToString(backdoorPort), listening);
    ParseIntToString(key);
    ParseIntToString(backdoorPort);
    Startup.PortsRoundTrip(receiverPorts);
  }

  /** A write to, or a deletion of, a file. */
  datatype FileAction = WriteFile(path: string, content: string) | DeleteFile(path: string)

  /** The discovery file: the trimmed working directory, the file separator and the fixed name. */
  function DiscoveryPath(wd: string, separator: string): string {
    Trim(wd) + separator + TmpFileName
  }

  /** The files that exist after the actions, starting from `existing`. */
  function Present(existing: set<string>, actions: seq<FileAction>): set<string>
    decreases |actions|
  {
    if actions == [] then existing
    else
      var last := actions[|actions| - 1];
      var before := Present(existing, actions[..|actions| - 1]);
      match last
      case WriteFile(path, _) => before + {path}
      case DeleteFile(path) => before - {path}
  }

  /** Publication under a lock: an empty lock file, the content, then the lock removed. */
  function LockedPublication(path: string, content: string): (r: seq<FileAction>)
    ensures |r| == 3 && r[1] == WriteFile(path, content)
  {
    [WriteFile(path + LockSuffix, ""), WriteFile(path, content), DeleteFile(path + LockSuffix)]
  }

  /** Publication without a lock: the content alone. */
  function PlainPublication(path: string, content: string): (r: seq<FileAction>)
    ensures |r| == 1 && r[0] == WriteFile(path, content)
  {
    [WriteFile(path, content)]
  }

  /**
   * Whatever existed before, the lock file exists while the content is
   * written and is gone afterwards, while the discovery file stays.
   */
  lemma LockGuardsWrite(existing: set<string>, path: string, content: string)
    ensures var actions := LockedPublication(path, content);
      path + LockSuffix in Present(existing, actions[..1]) &&
      actions[1] == WriteFile(path, content) &&
      path + LockSuffix !in Present(existing, actions) && path in Present(existing, actions)
  {
    var actions := LockedPublication(path, content);
    assert |path + LockSuffix| != |path|;
    assert actions[..1][..0] == [];
    assert actions[..2][..1] == actions[..1];
    assert actions[..3][..2] == actions[..2];
    assert actions[..3] == actions;
  }
}
