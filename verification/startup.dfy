/**
 * The command-line entry point: the parse of a `:`-separated port list and
 * the decision the main method takes from its arguments, ending in the
 * usage text, a configured server, or an exception that is either rethrown
 * (in test mode) or turned into exit status 1.
 */
module Startup {
  import opened Wrappers
  import opened JavaText
  import opened TypeCatalogue
  import opened J4RSystem
  import Conf = TrunkServerConfig
  import Checks = ServerConfig

  const PortOption := "-ports"
  const BackdoorPortOption := "-backdoorports"
  const NbPortsOption := "-nbports"
  const WdOption := "-wd"
  const PublicOption := "-public"
  const KeyOption := "-key"
  const PortSplitter := ":"

  /** `Integer.parseInt` over every field, failing on the first field that is not a 32-bit integer. */
  function ParseAll(fields: seq<string>): (r: Result<seq<int>, JavaException>)
    ensures r.Ok? ==> |r.value| == |fields|
    decreases |fields|
  {
    if fields == [] then Ok([])
    else
      var front := fields[..|fields| - 1];
      var last := fields[|fields| - 1];
      match ParseAll(front)
      case Err(e) => Err(e)
      case Ok(xs) =>
        match ParseInt(last)
        case None => Err(NumberFormat(last))
        case Some(n) => Ok(xs + [n])
  }

  /**
   * The parse succeeds exactly when every field is a 32-bit integer, and
   * then holds one value per field, in order; otherwise it reports the first
   * field that is not.
   */
  lemma ParseAllMeaning(fields: seq<string>)
    ensures ParseAll(fields).Ok? <==> forall k :: 0 <= k < |fields| ==> ParseInt(fields[k]).Some?
    ensures ParseAll(fields).Ok? ==> forall k :: 0 <= k < |fields| ==> ParseInt(fields[k]) == Some(ParseAll(fields).value[k])
    ensures ParseAll(fields).Err? ==>
      exists k :: 0 <= k < |fields| && ParseInt(fields[k]).None? && ParseAll(fields).error == NumberFormat(fields[k]) &&
                  forall j :: 0 <= j < k ==> ParseInt(fields[j]).Some?
  {
    ParseAllValues(fields);
    ParseAllError(fields);
  }

  /** A successful parse holds the value of each field, and only a parse of fields that all parse succeeds. */
  lemma {:induction false} ParseAllValues(fields: seq<string>)
    ensures ParseAll(fields).Ok? ==> forall k :: 0 <= k < |fields| ==> ParseInt(fields[k]) == Some(ParseAll(fields).value[k])
    ensures (forall k :: 0 <= k < |fields| ==> ParseInt(fields[k]).Some?) ==> ParseAll(fields).Ok?
    decreases |fields|
  {
    if fields != [] {
      var front := fields[..|fields| - 1];
      ParseAllValues(front);
      assert forall k :: 0 <= k < |front| ==> fields[k] == front[k];
    }
  }

  /** A failed parse names a field that does not parse, after fields that all do. */
  lemma {:induction false} ParseAllError(fields: seq<string>)
    ensures ParseAll(fields).Err? ==>
      exists k :: 0 <= k < |fields| && ParseInt(fields[k]).None? && ParseAll(fields).error == NumberFormat(fields[k]) &&
                  forall j :: 0 <= j < k ==> ParseInt(fields[j]).Some?
    decreases |fields|
  {
    if fields != [] {
      var front := fields[..|fields| - 1];
      var last := fields[|fields| - 1];
      ParseAllError(front);
      ParseAllValues(front);
      if ParseAll(front).Err? {
        var k :| 0 <= k < |front| && ParseInt(front[k]).None? && ParseAll(front).error == NumberFormat(front[k]) &&
                 forall j :: 0 <= j < k ==> ParseInt(front[j]).Some?;
        assert fields[k] == front[k] && forall j :: 0 <= j < k ==> fields[j] == front[j];
      } else if ParseInt(last).None? {
        assert forall j :: 0 <= j < |front| ==> fields[j] == front[j];
        assert fields[|front|] == last;
      }
    }
  }

  /** The ports `parsePorts` reads from a `:`-separated text. */
  function PortsOf(str: string): Result<seq<int>, JavaException> {
    ParseAll(Split(str, PortSplitter))
  }

  /** The first field that does not parse decides the error, whatever follows it. */
  lemma {:induction false} ParseAllFirstFailure(fields: seq<string>, i: nat)
    requires i < |fields| && ParseAll(fields[..i]).Ok? && ParseInt(fields[i]).None?
    ensures ParseAll(fields) == Err(NumberFormat(fields[i]))
    decreases |fields|
  {
    var front := fields[..|fields| - 1];
    if i < |fields| - 1 {
      assert front[..i] == fields[..i];
      ParseAllFirstFailure(front, i);
    } else {
      assert front == fields[..i];
    }
  }

  /** parsePorts: split on `:`, then fill an array of the same length with the parsed fields. */
  method ParsePorts(str: string) returns (r: Result<seq<int>, JavaException>)
    ensures r == PortsOf(str)
  {
    var p := Split(str, PortSplitter);
    var ports := new int[|p|];
    for i := 0 to |p|
      invariant ParseAll(p[..i]) == Ok(ports[..i])
    {
      assert p[..i + 1][..i] == p[..i];
      var n := ParseInt(p[i]);
      if n.None? {
        ParseAllFirstFailure(p, i);
        return Err(NumberFormat(p[i]));
      }
      ports[i] := n.value;
      assert ports[..i + 1] == ports[..i] + [n.value];
    }
    assert p[..|p|] == p;
    assert ports[..] == ports[..|p|];
    return Ok(ports[..]);
  }

  /** The printed form of every integer parses back to it. */
  lemma ParseAllIntTexts(xs: seq<int>)
    requires forall k :: 0 <= k < |xs| ==> IsInt32(xs[k])
    ensures ParseAll(IntTexts(xs)) == Ok(xs)
  {
    var texts := IntTexts(xs);
    forall k | 0 <= k < |xs|
      ensures ParseInt(texts[k]) == Some(xs[k])
    {
      ParseIntToString(xs[k]);
    }
    ParseAllMeaning(texts);
    assert ParseAll(texts).value == xs;
  }

  /** A non-empty port list written with `:` between the ports, as the discovery file holds it, parses back to itself. */
  lemma PortsRoundTrip(ports: seq<int>)
    requires ports != [] && forall k :: 0 <= k < |ports| ==> IsInt32(ports[k])
    ensures PortsOf(Join(IntTexts(ports), PortSplitter)) == Ok(ports)
  {
    SplitJoinInts(ports, PortSplitter);
    ParseAllIntTexts(ports);
  }

  /** An empty text is a single empty field, which is not a number. */
  lemma EmptyPortsRefused()
    ensures PortsOf("") == Err(NumberFormat(""))
  {
    assert Split("", PortSplitter) == [""];
    assert ParseInt("") == None;
    assert ParseAll([""][..0]) == Ok([]);
  }

  /** What the main method ends in. */
  datatype Outcome =
    | Usage                                  // no argument: the usage text is printed
    | Serving(conf: Conf.Configuration)      // the gateway server was built and started with this configuration
    | Rethrown(e: JavaException)             // test mode: the exception leaves main
    | Exit(status: int)                      // the message is printed and the process exits

  /** The listening ports: `-ports` if given, else `-nbports` zeros (one by default). */
  function ListeningPorts(arguments: seq<string>): (r: Result<seq<int>, JavaException>)
    ensures RetrieveArgument(PortOption, arguments).Some? ==> r == PortsOf(RetrieveArgument(PortOption, arguments).value)
    ensures RetrieveArgument(PortOption, arguments).None? && RetrieveArgument(NbPortsOption, arguments).None? ==> r == Ok([0])
    ensures RetrieveArgument(PortOption, arguments).None? && RetrieveArgument(NbPortsOption, arguments).Some? ==>
      var text := RetrieveArgument(NbPortsOption, arguments).value;
      match ParseInt(text)
      case None => r == Err(NumberFormat(text))
      case Some(n) => r == (if n < 0 then Err(NegativeArraySize(n)) else Ok(seq(n, _ => 0)))
  {
    match RetrieveArgument(PortOption, arguments)
    case Some(portStr) => PortsOf(portStr)
    case None =>
      match RetrieveArgument(NbPortsOption, arguments)
      case None => Ok([0])
      case Some(nbPortsStr) =>
        match ParseInt(nbPortsStr)
        case None => Err(NumberFormat(nbPortsStr))
        case Some(nbPorts) => if nbPorts < 0 then Err(NegativeArraySize(nbPorts)) else Ok(seq(nbPorts, _ => 0))
  }

  /** The backdoor ports: `-backdoorports` if given, else two zeros. */
  function BackdoorPorts(arguments: seq<string>): (r: Result<seq<int>, JavaException>)
    ensures RetrieveArgument(BackdoorPortOption, arguments).Some? ==> r == PortsOf(RetrieveArgument(BackdoorPortOption, arguments).value)
    ensures RetrieveArgument(BackdoorPortOption, arguments).None? ==> r == Ok([0, 0])
  {
    match RetrieveArgument(BackdoorPortOption, arguments)
    case Some(text) => PortsOf(text)
    case None => Ok([0, 0])
  }

  /** The server is public only when `-public` is given as `on`, ignoring case and surrounding blanks. */
  predicate IsPublic(arguments: seq<string>) {
    var publicMode := RetrieveArgument(PublicOption, arguments);
    publicMode.Some? && ToLower(Trim(publicMode.value)) == "on"
  }

  /** The security key: the parsable `-key` value of a public server, the generated key otherwise. */
  function SecurityKey(arguments: seq<string>, generatedKey: int): (r: int)
    ensures IsPublic(arguments) && RetrieveArgument(KeyOption, arguments).Some? &&
            ParseInt(RetrieveArgument(KeyOption, arguments).value).Some? ==>
      r == ParseInt(RetrieveArgument(KeyOption, arguments).value).value
    ensures !IsPublic(arguments) || RetrieveArgument(KeyOption, arguments).None? ||
            ParseInt(RetrieveArgument(KeyOption, arguments).value).None? ==>
      r == generatedKey
  {
    if IsPublic(arguments) then
      match RetrieveArgument(KeyOption, arguments)
      case None => generatedKey
      case Some(keyStr) => if ParseInt(keyStr).Some? then ParseInt(keyStr).value else generatedKey
    else generatedKey
  }

  /** The configuration main builds from its arguments, or the exception that stops it. */
  function Configure(arguments: seq<string>, generatedKey: int, wdExists: bool, tmpDir: string): (r: Result<Conf.Configuration, JavaException>)
    ensures ListeningPorts(arguments).Err? ==> r == Err(ListeningPorts(arguments).error)
    ensures ListeningPorts(arguments).Ok? && BackdoorPorts(arguments).Err? ==> r == Err(BackdoorPorts(arguments).error)
    ensures ListeningPorts(arguments).Ok? && BackdoorPorts(arguments).Ok? ==>
      var key := SecurityKey(arguments, generatedKey);
      var ports := Some(ListeningPorts(arguments).value);
      var backdoor := Some(BackdoorPorts(arguments).value);
      r == if IsPublic(arguments) then Conf.Public(1, 10, ports, backdoor, key)
           else Conf.Private(ports, backdoor, key, RetrieveArgument(WdOption, arguments), wdExists, tmpDir)
  {
    var wd := RetrieveArgument(WdOption, arguments);
    var listeningPorts :- ListeningPorts(arguments);
    var backdoorports :- BackdoorPorts(arguments);
    var key := SecurityKey(arguments, generatedKey);
    if IsPublic(arguments) then Conf.Public(1, 10, Some(listeningPorts), Some(backdoorports), key)
    else Conf.Private(Some(listeningPorts), Some(backdoorports), key, wd, wdExists, tmpDir)
  }

  /**
   * The main method. A `null` argument array is `None`. The random key,
   * whether the `-wd` directory exists, the temporary directory, the failure
   * (if any) of building and starting the server, and the test flag are
   * given. The log file and the log level are not part of this model.
   */
  function Launch(args: Option<seq<string>>, generatedKey: int, wdExists: bool, tmpDir: string,
                  startFailure: Option<JavaException>, testPurpose: bool): (r: Outcome)
    ensures args.None? || args.value == [] <==> r == Usage
    ensures r.Serving? ==> startFailure.None? && Configure(args.value, generatedKey, wdExists, tmpDir) == Ok(r.conf)
    ensures r.Rethrown? ==> testPurpose
    ensures r.Exit? ==> !testPurpose && r.status == 1
  {
    if args.None? || |args.value| == 0 then Usage
    else
      var arguments := SetClassicalOptions(args.value);
      var failure :=
        match Configure(arguments, generatedKey, wdExists, tmpDir)
        case Err(e) => Some(e)
        case Ok(_) => startFailure;
      match failure
      case None => Serving(Configure(arguments, generatedKey, wdExists, tmpDir).value)
      case Some(e) => if testPurpose then Rethrown(e) else Exit(1)
  }

  /** Without port options one listening port and two backdoor ports, all left to the system. */
  lemma DefaultPorts(arguments: seq<string>)
    requires PortOption !in arguments && NbPortsOption !in arguments && BackdoorPortOption !in arguments
    ensures ListeningPorts(arguments) == Ok([0])
    ensures BackdoorPorts(arguments) == Ok([0, 0])
  {
    RetrieveArgumentAbsentOrLast(arguments, PortOption);
    RetrieveArgumentAbsentOrLast(arguments, NbPortsOption);
    RetrieveArgumentAbsentOrLast(arguments, BackdoorPortOption);
  }

  /** A list of non-negative ports written with `:` starts with a digit, so it is never taken for an option. */
  lemma PortTextStartsWithDigit(ports: seq<int>)
    requires ports != [] && forall k :: 0 <= k < |ports| ==> ports[k] >= 0
    ensures var text := Join(IntTexts(ports), PortSplitter);
      text != "" && IsDigit(text[0]) && text !in {PortOption, BackdoorPortOption, NbPortsOption, WdOption, PublicOption, KeyOption}
  {
    var first := IntTexts(ports)[0];
    assert first == NatToString(ports[0]);
    NatToStringDigits(ports[0]);
    var text := Join(IntTexts(ports), PortSplitter);
    JoinStartsWithFirst(IntTexts(ports), PortSplitter);
    assert text[0] == first[0] by {
      assert text[..|first|] == first;
    }
    assert text[0] != '-';
  }

  /** The arguments `-ports <ports> -backdoorports <backdoor>` give those ports, a private server and the generated key. */
  lemma PrivateArguments(ports: seq<int>, backdoor: seq<int>, generatedKey: int)
    requires ports != [] && forall k :: 0 <= k < |ports| ==> Checks.ValidPort(ports[k])
    requires backdoor != [] && forall k :: 0 <= k < |backdoor| ==> Checks.ValidPort(backdoor[k])
    ensures var args := [PortOption, Join(IntTexts(ports), PortSplitter), BackdoorPortOption, Join(IntTexts(backdoor), PortSplitter)];
      ListeningPorts(args) == Ok(ports) && BackdoorPorts(args) == Ok(backdoor) && !IsPublic(args) &&
      SecurityKey(args, generatedKey) == generatedKey && RetrieveArgument(WdOption, args) == None
  {
    PortTextStartsWithDigit(ports);
    PortTextStartsWithDigit(backdoor);
    PortsRoundTrip(ports);
    PortsRoundTrip(backdoor);
    PortOptions(Join(IntTexts(ports), PortSplitter), Join(IntTexts(backdoor), PortSplitter));
  }

  /** What the options `-ports` and `-backdoorports` followed by values that are not options retrieve. */
  lemma PortOptions(portText: string, backdoorText: string)
    requires portText !in {PortOption, BackdoorPortOption, NbPortsOption, WdOption, PublicOption, KeyOption}
    requires backdoorText !in {PortOption, BackdoorPortOption, NbPortsOption, WdOption, PublicOption, KeyOption}
    ensures var args := [PortOption, portText, BackdoorPortOption, backdoorText];
      RetrieveArgument(PortOption, args) == Some(portText) && RetrieveArgument(BackdoorPortOption, args) == Some(backdoorText) &&
      RetrieveArgument(PublicOption, args) == None && RetrieveArgument(WdOption, args) == None
  {
    var args := [PortOption, portText, BackdoorPortOption, backdoorText];
    assert [] + [PortOption, portText] + [BackdoorPortOption, backdoorText] == args;
    RetrieveArgumentFindsValue([], PortOption, portText, [BackdoorPortOption, backdoorText]);
    assert [PortOption, portText] + [BackdoorPortOption, backdoorText] + [] == args;
    RetrieveArgumentFindsValue([PortOption, portText], BackdoorPortOption, backdoorText, []);
    RetrieveArgumentAbsentOrLast(args, PublicOption);
    RetrieveArgumentAbsentOrLast(args, WdOption);
  }

  /**
   * A private launch with valid ports given explicitly starts a server bound
   * to exactly those ports, with the generated key, one client thread, no
   * waiting list, and the temporary directory when no `-wd` is given.
   */
  lemma PrivateLaunch(ports: seq<int>, backdoor: seq<int>, generatedKey: int, tmpDir: string)
    requires ports != [] && forall k :: 0 <= k < |ports| ==> Checks.ValidPort(ports[k])
    requires backdoor != [] && forall k :: 0 <= k < |backdoor| ==> Checks.ValidPort(backdoor[k])
    ensures var args := [PortOption, Join(IntTexts(ports), PortSplitter), BackdoorPortOption, Join(IntTexts(backdoor), PortSplitter)];
      Launch(Some(args), generatedKey, false, tmpDir, None, false) ==
        Serving(Conf.Configuration(1, 0, ports, backdoor, true, generatedKey, Some(tmpDir)))
  {
    var args := [PortOption, Join(IntTexts(ports), PortSplitter), BackdoorPortOption, Join(IntTexts(backdoor), PortSplitter)];
    PrivateArguments(ports, backdoor, generatedKey);
    assert SetClassicalOptions(args) == args;
    assert Configure(args, generatedKey, false, tmpDir) == Conf.Private(Some(ports), Some(backdoor), generatedKey, None, false, tmpDir);
  }

  /** Whichever exception stops the start, test mode rethrows it and normal mode exits with status 1. */
  lemma FailedStart(args: seq<string>, generatedKey: int, wdExists: bool, tmpDir: string, e: JavaException)
    requires args != []
    ensures Launch(Some(args), generatedKey, wdExists, tmpDir, Some(e), false) == Exit(1)
    ensures Launch(Some(args), generatedKey, wdExists, tmpDir, Some(e), true).Rethrown?
  {
  }
}
