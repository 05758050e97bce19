/** `execute_action`: the action menu read from a sequence of input lines,
    decoded into the port scans it launches. Console output is left out; the
    lines are what `read_line` would deliver, one per prompt. */
module Menu {
  import opened Wrappers
  import opened Text
  import opened Addresses
  import PortScan

  datatype Action =
    | CatalogAllHosts   // 1. most used ports on all IPs
    | CatalogOneHost    // 2. most used ports on a specific IP
    | RangeAllHosts     // 3. a port range on all IPs
    | RangeOneHost      // 4. a port range on a specific IP
  {
    /** The menu number that selects the action. */
    function Number(): int {
      match this
      case CatalogAllHosts => 1
      case CatalogOneHost => 2
      case RangeAllHosts => 3
      case RangeOneHost => 4
    }
  }

  /** `match input.trim().parse::<i32>()`: `Ok(1)` to `Ok(4)` select an
      action; anything else re-prompts. */
  function DecodeAction(line: string): (r: Option<Action>)
    ensures r.Some? <==> ParseI32(Trim(line)).Some? && 1 <= ParseI32(Trim(line)).value <= 4
    ensures r.Some? ==> ParseI32(Trim(line)) == Some(r.value.Number())
  {
    match ParseI32(Trim(line))
    case Some(1) => Some(CatalogAllHosts)
    case Some(2) => Some(CatalogOneHost)
    case Some(3) => Some(RangeAllHosts)
    case Some(4) => Some(RangeOneHost)
    case _ => None
  }

  /** A line selects an action exactly when its trimmed text parses as the
      action's number. */
  lemma DecodeActionSpec(line: string, a: Action)
    ensures DecodeAction(line) == Some(a) <==> ParseI32(Trim(line)) == Some(a.Number())
  {
  }

  /** Every action is selected by its number, with any whitespace around it
      (the line terminator included). */
  lemma DecodeNumber(a: Action, pre: string, post: string)
    requires AllWhitespace(pre) && AllWhitespace(post)
    ensures DecodeAction(pre + Decimal(a.Number() as nat) + post) == Some(a)
  {
    var digits := Decimal(a.Number() as nat);
    assert !IsWhitespace(digits[0]) && !IsWhitespace(digits[|digits| - 1]);
    TrimPadded(pre, digits, post);
    ParseDecimal(a.Number() as nat, true, I32_MIN, I32_MAX);
  }

  /** Out-of-range numbers, words and empty lines select nothing. */
  lemma DecodeRejects()
    ensures DecodeAction("7\n") == None
    ensures DecodeAction("abc\n") == None
    ensures DecodeAction("\n") == None
    ensures DecodeAction("") == None
  {
    assert Trim("7\n") == "7" by { TrimPadded("", "7", "\n"); }
    assert Trim("abc\n") == "abc" by { TrimPadded("", "abc", "\n"); }
    assert Trim("\n") == "" by { TrimPadded("", "", "\n"); }
  }

  /** "2" followed by the line terminator selects the single-host catalog
      scan. */
  lemma DecodeTwo()
    ensures DecodeAction("2\n") == Some(CatalogOneHost)
  {
    DecodeNumber(CatalogOneHost, "", "\n");
    assert "" + Decimal(2) + "\n" == "2\n";
  }

  /** The selected action and how many input lines the menu consumed. */
  datatype Choice = Choice(action: Action, consumed: nat)

  /** The menu loop, for any line decoder: lines that do not decode are
      skipped (re-prompt); the first one that does ends the loop. `None` when
      the lines run out first. */
  function FirstDecoded(lines: seq<string>, decode: string -> Option<Action>): (r: Option<Choice>)
    ensures r.None? <==> forall j :: 0 <= j < |lines| ==> decode(lines[j]).None?
    ensures r.Some? ==>
      && 1 <= r.value.consumed <= |lines|
      && decode(lines[r.value.consumed - 1]) == Some(r.value.action)
      && forall j :: 0 <= j < r.value.consumed - 1 ==> decode(lines[j]).None?
    decreases |lines|
  {
    if |lines| == 0 then None
    else
      match decode(lines[0])
      case Some(a) => Some(Choice(a, 1))
      case None =>
        match FirstDecoded(lines[1..], decode)
        case None =>
          assert forall j :: 1 <= j < |lines| ==> lines[j] == lines[1..][j - 1];
          None
        case Some(c) =>
          assert forall j :: 1 <= j < |lines| ==> lines[j] == lines[1..][j - 1];
          Some(Choice(c.action, c.consumed + 1))
  }

  /** The menu loop of `execute_action`. At end of input the source reads
      empty lines and re-prompts forever; here the lines simply run out. */
  function FirstChoice(lines: seq<string>): Option<Choice> {
    FirstDecoded(lines, DecodeAction)
  }

  /** Only the first valid choice is acted on: whatever follows it, and
      however many invalid lines precede it. */
  lemma FirstValidChoiceWins(invalid: seq<string>, line: string, rest: seq<string>, a: Action)
    requires forall j :: 0 <= j < |invalid| ==> DecodeAction(invalid[j]).None?
    requires DecodeAction(line) == Some(a)
    ensures FirstChoice(invalid + [line] + rest) == Some(Choice(a, |invalid| + 1))
  {
    var lines := invalid + [line] + rest;
    assert lines[|invalid|] == line;
    assert forall j :: 0 <= j < |invalid| ==> lines[j] == invalid[j];
    FirstDecodedAt(lines, DecodeAction, |invalid|, a);
  }

  /** The loop, for any decoder, stops exactly after the first line that
      decodes. */
  lemma FirstDecodedAt(lines: seq<string>, decode: string -> Option<Action>, k: nat, a: Action)
    requires k < |lines| && decode(lines[k]) == Some(a)
    requires forall j :: 0 <= j < k ==> decode(lines[j]).None?
    ensures FirstDecoded(lines, decode) == Some(Choice(a, k + 1))
  {
  }

  // ---------------------------------------------------------------------------
  // Dispatch

  /** One call of `scan_most_used_ports_for_ip` or `scan_port_range_for_ip`. */
  datatype ScanJob =
    | CatalogScan(target: IpAddr)
    | RangeScan(target: IpAddr, startPort: U32, endPort: U32)

  /** The `expect` panics of the follow-up prompts. */
  datatype InputError = InvalidIpAddress | InvalidStartPort | InvalidEndPort

  /** The `k`-th follow-up line; `read_line` leaves the buffer empty at end of
      input. */
  function Line(rest: seq<string>, k: nat): string {
    if k < |rest| then rest[k] else ""
  }

  /** `ip_input.trim().parse::<IpAddr>()`, with the address parser an oracle. */
  function ReadIp(line: string, parseIp: string -> Option<IpAddr>): (r: Result<IpAddr, InputError>)
    ensures r.Ok? <==> parseIp(Trim(line)).Some?
    ensures r.Ok? ==> parseIp(Trim(line)) == Some(r.value)
    ensures r.Err? ==> r.error == InvalidIpAddress
  {
    match parseIp(Trim(line))
    case Some(ip) => Ok(ip)
    case None => Err(InvalidIpAddress)
  }

  /** `port_input.trim().parse::<u32>()`, failing with `err`. */
  function ReadPort(line: string, err: InputError): (r: Result<U32, InputError>)
    ensures r.Ok? <==> ParseU32(Trim(line)).Some?
    ensures r.Ok? ==> ParseU32(Trim(line)) == Some(r.value)
    ensures r.Err? ==> r.error == err
  {
    match ParseU32(Trim(line))
    case Some(p) => Ok(p)
    case None => Err(err)
  }

  /** A port typed as its decimal number, with any whitespace around it, is
      read back as that number. */
  lemma ReadPortDecimal(pre: string, n: nat, post: string, err: InputError)
    requires AllWhitespace(pre) && AllWhitespace(post)
    requires n <= U32_MAX
    ensures ReadPort(pre + Decimal(n) + post, err) == Ok(n)
  {
    var digits := Decimal(n);
    assert !IsWhitespace(digits[0]) && !IsWhitespace(digits[|digits| - 1]);
    TrimPadded(pre, digits, post);
    ParseDecimal(n, false, 0, 0xFFFF_FFFF);
  }

  /** The inputs each action asks for, in order, and the scans it runs. */
  function Dispatch(action: Action, rest: seq<string>, hosts: seq<IpAddr>,
                    parseIp: string -> Option<IpAddr>): (r: Result<seq<ScanJob>, InputError>)
    ensures action == CatalogAllHosts ==> r.Ok?
    ensures r.Ok? && (action == CatalogAllHosts || action == RangeAllHosts) ==>
      |r.value| == |hosts| && forall i :: 0 <= i < |hosts| ==> r.value[i].target == hosts[i]
    ensures r.Ok? && (action == CatalogOneHost || action == RangeOneHost) ==> |r.value| == 1
    ensures r.Ok? ==> forall i :: 0 <= i < |r.value| ==>
      (r.value[i].CatalogScan? <==> action == CatalogAllHosts || action == CatalogOneHost)
    ensures r.Ok? && (action == RangeAllHosts || action == RangeOneHost) ==>
      forall i :: 0 <= i < |r.value| ==>
        r.value[i].startPort == r.value[0].startPort && r.value[i].endPort == r.value[0].endPort
    // the single-host actions scan the entered address, and fail first on it
    ensures action == CatalogOneHost || action == RangeOneHost ==>
      (r == Err(InvalidIpAddress) <==> parseIp(Trim(Line(rest, 0))).None?)
    ensures r.Ok? && (action == CatalogOneHost || action == RangeOneHost) ==>
      parseIp(Trim(Line(rest, 0))) == Some(r.value[0].target)
    // the range actions ask for the start port, then the end port, after the address if any
    ensures action == RangeAllHosts ==>
      && (r == Err(InvalidStartPort) <==> ParseU32(Trim(Line(rest, 0))).None?)
      && (r == Err(InvalidEndPort) <==>
            ParseU32(Trim(Line(rest, 0))).Some? && ParseU32(Trim(Line(rest, 1))).None?)
    ensures action == RangeOneHost ==>
      && (r == Err(InvalidStartPort) <==>
            parseIp(Trim(Line(rest, 0))).Some? && ParseU32(Trim(Line(rest, 1))).None?)
      && (r == Err(InvalidEndPort) <==>
            parseIp(Trim(Line(rest, 0))).Some? && ParseU32(Trim(Line(rest, 1))).Some?
            && ParseU32(Trim(Line(rest, 2))).None?)
    ensures r.Ok? && action == RangeAllHosts ==> forall i :: 0 <= i < |r.value| ==>
      && ParseU32(Trim(Line(rest, 0))) == Some(r.value[i].startPort as int)
      && ParseU32(Trim(Line(rest, 1))) == Some(r.value[i].endPort as int)
    ensures r.Ok? && action == RangeOneHost ==>
      && ParseU32(Trim(Line(rest, 1))) == Some(r.value[0].startPort as int)
      && ParseU32(Trim(Line(rest, 2))) == Some(r.value[0].endPort as int)
    // an address error only from a single-host action, a port error only from a range action
    ensures r.Err? && r.error == InvalidIpAddress ==> action == CatalogOneHost || action == RangeOneHost
    ensures r.Err? && r.error != InvalidIpAddress ==> action == RangeAllHosts || action == RangeOneHost
  {
    match action
    case CatalogAllHosts =>
      Ok(seq(|hosts|, i requires 0 <= i < |hosts| => CatalogScan(hosts[i])))
    case CatalogOneHost =>
      var ip :- ReadIp(Line(rest, 0), parseIp);
      Ok([CatalogScan(ip)])
    case RangeAllHosts =>
      var start :- ReadPort(Line(rest, 0), InvalidStartPort);
      var end :- ReadPort(Line(rest, 1), InvalidEndPort);
      Ok(seq(|hosts|, i requires 0 <= i < |hosts| => RangeScan(hosts[i], start, end)))
    case RangeOneHost =>
      var ip :- ReadIp(Line(rest, 0), parseIp);
      var start :- ReadPort(Line(rest, 1), InvalidStartPort);
      var end :- ReadPort(Line(rest, 2), InvalidEndPort);
      Ok([RangeScan(ip, start, end)])
  }

  datatype MenuOutcome =
    | NoChoice                                   // input ended before a valid choice
    | Aborted(error: InputError)                 // a follow-up input did not parse
    | Dispatched(action: Action, jobs: seq<ScanJob>)

  /** `execute_action(results)` over the input `lines`, with the discovered
      `hosts`. */
  function ExecuteAction(lines: seq<string>, hosts: seq<IpAddr>,
                         parseIp: string -> Option<IpAddr>): (r: MenuOutcome)
    ensures r.NoChoice? <==> forall j :: 0 <= j < |lines| ==> DecodeAction(lines[j]).None?
    ensures r.Dispatched? ==> FirstChoice(lines).Some? && r.action == FirstChoice(lines).value.action
    // actions 1 and 3 scan every discovered host once, in list order
    ensures r.Dispatched? && (r.action == CatalogAllHosts || r.action == RangeAllHosts) ==>
      |r.jobs| == |hosts| && forall i :: 0 <= i < |hosts| ==> r.jobs[i].target == hosts[i]
    // actions 2 and 4 scan exactly one entered host
    ensures r.Dispatched? && (r.action == CatalogOneHost || r.action == RangeOneHost) ==>
      |r.jobs| == 1
    // actions 1 and 2 scan the catalog, 3 and 4 a range, the same range for every host
    ensures r.Dispatched? ==> forall i :: 0 <= i < |r.jobs| ==>
      (r.jobs[i].CatalogScan? <==> r.action == CatalogAllHosts || r.action == CatalogOneHost)
    ensures r.Dispatched? && (r.action == RangeAllHosts || r.action == RangeOneHost) ==>
      forall i :: 0 <= i < |r.jobs| ==> r.jobs[i].startPort == r.jobs[0].startPort && r.jobs[i].endPort == r.jobs[0].endPort
  {
    match FirstChoice(lines)
    case None => NoChoice
    case Some(c) =>
      match Dispatch(c.action, lines[c.consumed..], hosts, parseIp)
      case Err(e) => Aborted(e)
      case Ok(jobs) => Dispatched(c.action, jobs)
  }

  /** An abort comes from a follow-up prompt of the chosen action: an address
      error only after action 2 or 4, a port error only after action 3 or 4,
      so action 1 never aborts. */
  lemma AbortCause(lines: seq<string>, hosts: seq<IpAddr>, parseIp: string -> Option<IpAddr>)
    requires ExecuteAction(lines, hosts, parseIp).Aborted?
    ensures FirstChoice(lines).Some?
    ensures ExecuteAction(lines, hosts, parseIp).error == InvalidIpAddress ==>
      FirstChoice(lines).value.action == CatalogOneHost || FirstChoice(lines).value.action == RangeOneHost
    ensures ExecuteAction(lines, hosts, parseIp).error != InvalidIpAddress ==>
      FirstChoice(lines).value.action == RangeAllHosts || FirstChoice(lines).value.action == RangeOneHost
  {
  }

  /** The entered start and end ports are the ones every range scan uses,
      and a port text that does not parse aborts before any scan. Lines
      after the end port (`more`) are never read. */
  lemma RangeInputs(lines: seq<string>, hosts: seq<IpAddr>, parseIp: string -> Option<IpAddr>,
                    invalid: seq<string>, choice: string, startText: string, endText: string,
                    more: seq<string>)
    requires forall j :: 0 <= j < |invalid| ==> DecodeAction(invalid[j]).None?
    requires DecodeAction(choice) == Some(RangeAllHosts)
    requires lines == invalid + [choice, startText, endText] + more
    ensures ParseU32(Trim(startText)).None? ==> ExecuteAction(lines, hosts, parseIp) == Aborted(InvalidStartPort)
    ensures ParseU32(Trim(startText)).Some? && ParseU32(Trim(endText)).None? ==>
      ExecuteAction(lines, hosts, parseIp) == Aborted(InvalidEndPort)
    ensures ParseU32(Trim(startText)).Some? && ParseU32(Trim(endText)).Some? ==>
      var r := ExecuteAction(lines, hosts, parseIp);
      && r.Dispatched? && r.action == RangeAllHosts
      && |r.jobs| == |hosts|
      && forall i :: 0 <= i < |hosts| ==>
           r.jobs[i] == RangeScan(hosts[i], ParseU32(Trim(startText)).value, ParseU32(Trim(endText)).value)
  {
    var rest := [startText, endText] + more;
    assert lines == invalid + [choice] + rest;
    FirstValidChoiceWins(invalid, choice, rest, RangeAllHosts);
    assert lines[|invalid| + 1..] == rest;
    assert Line(rest, 0) == startText && Line(rest, 1) == endText;
    var r := ExecuteAction(lines, hosts, parseIp);
    assert r == match Dispatch(RangeAllHosts, rest, hosts, parseIp)
                case Err(e) => Aborted(e)
                case Ok(jobs) => Dispatched(RangeAllHosts, jobs);
    if ParseU32(Trim(startText)).Some? && ParseU32(Trim(endText)).Some? {
      var start: U32 := ParseU32(Trim(startText)).value;
      var end: U32 := ParseU32(Trim(endText)).value;
      assert ReadPort(startText, InvalidStartPort) == Ok(start);
      assert ReadPort(endText, InvalidEndPort) == Ok(end);
      var jobs := seq(|hosts|, i requires 0 <= i < |hosts| => RangeScan(hosts[i], start, end));
      assert Dispatch(RangeAllHosts, rest, hosts, parseIp) == Ok(jobs);
      assert r == Dispatched(RangeAllHosts, jobs);
    }
  }

  /** Action 2 asks for one address: an address that does not parse aborts,
      one that does is the only host scanned against the catalog, whatever
      lines follow it. */
  lemma CatalogHostInputs(lines: seq<string>, hosts: seq<IpAddr>, parseIp: string -> Option<IpAddr>,
                          invalid: seq<string>, choice: string, ipText: string,
                          more: seq<string>)
    requires forall j :: 0 <= j < |invalid| ==> DecodeAction(invalid[j]).None?
    requires DecodeAction(choice) == Some(CatalogOneHost)
    requires lines == invalid + [choice, ipText] + more
    ensures parseIp(Trim(ipText)).None? ==> ExecuteAction(lines, hosts, parseIp) == Aborted(InvalidIpAddress)
    ensures parseIp(Trim(ipText)).Some? ==>
      ExecuteAction(lines, hosts, parseIp)
        == Dispatched(CatalogOneHost, [CatalogScan(parseIp(Trim(ipText)).value)])
  {
    var rest := [ipText] + more;
    assert lines == invalid + [choice] + rest;
    FirstValidChoiceWins(invalid, choice, rest, CatalogOneHost);
    assert lines[|invalid| + 1..] == rest;
    assert Line(rest, 0) == ipText;
  }

  /** Action 4 asks for an address, a start port and an end port, in that
      order: the first of them that does not parse decides the abort, and
      when all three parse the entered host is scanned over the entered
      range, and no other host is; later lines are never read. */
  lemma RangeHostInputs(lines: seq<string>, hosts: seq<IpAddr>, parseIp: string -> Option<IpAddr>,
                        invalid: seq<string>, choice: string, ipText: string,
                        startText: string, endText: string, more: seq<string>)
    requires forall j :: 0 <= j < |invalid| ==> DecodeAction(invalid[j]).None?
    requires DecodeAction(choice) == Some(RangeOneHost)
    requires lines == invalid + [choice, ipText, startText, endText] + more
    ensures parseIp(Trim(ipText)).None? ==> ExecuteAction(lines, hosts, parseIp) == Aborted(InvalidIpAddress)
    ensures parseIp(Trim(ipText)).Some? && ParseU32(Trim(startText)).None? ==>
      ExecuteAction(lines, hosts, parseIp) == Aborted(InvalidStartPort)
    ensures parseIp(Trim(ipText)).Some? && ParseU32(Trim(startText)).Some? && ParseU32(Trim(endText)).None? ==>
      ExecuteAction(lines, hosts, parseIp) == Aborted(InvalidEndPort)
    ensures parseIp(Trim(ipText)).Some? && ParseU32(Trim(startText)).Some? && ParseU32(Trim(endText)).Some? ==>
      var r := ExecuteAction(lines, hosts, parseIp);
      && r.Dispatched? && r.action == RangeOneHost
      && |r.jobs| == 1 && r.jobs[0].RangeScan?
      && parseIp(Trim(ipText)) == Some(r.jobs[0].target)
      && ParseU32(Trim(startText)) == Some(r.jobs[0].startPort as int)
      && ParseU32(Trim(endText)) == Some(r.jobs[0].endPort as int)
  {
    var rest := [ipText, startText, endText] + more;
    assert lines == invalid + [choice] + rest;
    FirstValidChoiceWins(invalid, choice, rest, RangeOneHost);
    assert lines[|invalid| + 1..] == rest;
    assert Line(rest, 0) == ipText && Line(rest, 1) == startText && Line(rest, 2) == endText;
  }

  /** The menu skips "7", "abc" and an empty line, then takes "2". */
  lemma RePromptChoice(rest: seq<string>)
    ensures FirstChoice(["7\n", "abc\n", "\n", "2\n"] + rest) == Some(Choice(CatalogOneHost, 4))
  {
    DecodeRejects();
    DecodeTwo();
    FourthLineChoice("7\n", "abc\n", "\n", "2\n", rest, CatalogOneHost);
  }

  /** Three lines that select nothing, then one that selects `a`. */
  lemma FourthLineChoice(l0: string, l1: string, l2: string, l3: string, rest: seq<string>, a: Action)
    requires DecodeAction(l0).None? && DecodeAction(l1).None? && DecodeAction(l2).None?
    requires DecodeAction(l3) == Some(a)
    ensures FirstChoice([l0, l1, l2, l3] + rest) == Some(Choice(a, 4))
  {
    var lines := [l0, l1, l2, l3] + rest;
    assert lines[0] == l0 && lines[1] == l1 && lines[2] == l2 && lines[3] == l3;
    FirstDecodedAt(lines, DecodeAction, 3, a);
  }

  /** Invalid menu lines are skipped without side effects, then a valid `2`
      scans the entered host once. */
  lemma RePromptThenScan(ipText: string, ip: IpAddr, hosts: seq<IpAddr>, parseIp: string -> Option<IpAddr>)
    requires parseIp(Trim(ipText)) == Some(ip)
    ensures ExecuteAction(["7\n", "abc\n", "\n", "2\n", ipText], hosts, parseIp)
      == Dispatched(CatalogOneHost, [CatalogScan(ip)])
  {
    var lines := ["7\n", "abc\n", "\n", "2\n", ipText];
    assert lines == ["7\n", "abc\n", "\n", "2\n"] + [ipText];
    RePromptChoice([ipText]);
    assert lines[4..] == [ipText];
    assert Dispatch(CatalogOneHost, [ipText], hosts, parseIp) == Ok([CatalogScan(ip)]);
  }

  /** Running one scan: the map it returns. */
  function RunJob(job: ScanJob, connect: PortScan.Connector): (r: map<IpAddr, seq<nat>>)
    ensures r.Keys <= {job.target}
  {
    match job
    case CatalogScan(ip) => PortScan.ScanCatalog(ip, connect)
    case RangeScan(ip, start, end) => PortScan.ScanRange(ip, start, end, connect)
  }
}
