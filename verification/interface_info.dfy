/** The parsing half of `get_interface_info`: from the text printed by
    `ip addr show <iface>` and by `ip route show default dev <iface>` to an
    interface record, or to the exception the code raises instead. The two
    commands themselves are not run here; their outputs are the inputs. */
module InterfaceInfo {
  import opened Wrappers
  import opened PyStrings

  /** The substring that marks an IPv4 address line. An "inet6" line does
      not contain it, because "inet" is followed there by '6'. */
  const InetMarker: string := "inet "

  /** The exceptions the parser can raise. */
  datatype ParseError =
    | NoIpAddressFound     // the ValueError raised when no line holds "inet "
    | AddressTokenMissing  // IndexError: the chosen line has no second word
    | PrefixMissing        // IndexError: the address word holds no '/'
    | GatewayTokenMissing  // IndexError: the route text has no third word

  /** The text the exception carries. */
  function Message(e: ParseError): string {
    match e
    case NoIpAddressFound => "No IP address found on the interface"
    case _ => "list index out of range"
  }

  /** The record returned for one interface. `subnetMask` is the raw text
      after the '/', never converted to a number. */
  datatype InterfaceConfig = InterfaceConfig(ipAddress: string, subnetMask: string, gateway: Option<string>)

  /** `ip` is the text before the first '/' of `token`, and `mask` is the
      text between that '/' and the next one, or the end of `token`. */
  predicate SplitsAddressToken(token: string, ip: string, mask: string) {
    && '/' !in ip
    && '/' !in mask
    && ip + "/" + mask <= token
    && (|ip| + 1 + |mask| == |token| || token[|ip| + 1 + |mask|] == '/')
  }

  /** The chosen address line: its second word, split on '/', gives the
      address (piece 0) and the prefix length (piece 1). */
  function ParseAddressLine(line: string): Result<(string, string), ParseError> {
    var info := Words(line);
    if |info| < 2 then Failure(AddressTokenMissing)
    else
      var pieces := SplitOn(info[1], '/');
      if |pieces| < 2 then Failure(PrefixMissing)
      else Success((pieces[0], pieces[1]))
  }

  /** The address part of the parser: keep the lines that contain "inet ",
      fail when there is none, and read the first one. */
  function ParseAddress(output: string): Result<(string, string), ParseError> {
    var ipLines := LinesContaining(SplitLines(output), InetMarker);
    if ipLines == [] then Failure(NoIpAddressFound)
    else ParseAddressLine(ipLines[0])
  }

  /** The gateway part of the parser: no gateway for a blank route text,
      otherwise its third word. */
  function ParseGateway(routeOutput: string): Result<Option<string>, ParseError> {
    var stripped := Strip(routeOutput);
    if stripped == [] then Success(None)
    else
      var words := Words(stripped);
      if |words| < 3 then Failure(GatewayTokenMissing)
      else Success(Some(words[2]))
  }

  /** `get_interface_info` without its two commands: the address is read
      first, so an address error is raised before the route text is looked at. */
  function GetInterfaceInfo(addrOutput: string, routeOutput: string): (r: Result<InterfaceConfig, ParseError>)
    ensures ParseAddress(addrOutput).Failure? ==> r == Failure(ParseAddress(addrOutput).error)
    ensures ParseAddress(addrOutput).Success? && ParseGateway(routeOutput).Failure? ==>
      r == Failure(ParseGateway(routeOutput).error)
    ensures r.Success? <==> ParseAddress(addrOutput).Success? && ParseGateway(routeOutput).Success?
    ensures r.Success? ==>
      && (r.value.ipAddress, r.value.subnetMask) == ParseAddress(addrOutput).value
      && r.value.gateway == ParseGateway(routeOutput).value
  {
    var address :- ParseAddress(addrOutput);
    var gateway :- ParseGateway(routeOutput);
    Success(InterfaceConfig(address.0, address.1, gateway))
  }

  // ---------------------------------------------------------------------
  // What the address parser computes
  // ---------------------------------------------------------------------

  /** The three outcomes of reading an address line: a line of fewer than
      two words, an address word without '/', and otherwise the address
      before the first '/' with the prefix up to the next '/'. */
  lemma {:induction false} AddressLineOutcome(line: string)
    ensures |Words(line)| < 2 ==> ParseAddressLine(line) == Failure(AddressTokenMissing)
    ensures |Words(line)| >= 2 && '/' !in Words(line)[1] ==> ParseAddressLine(line) == Failure(PrefixMissing)
    ensures |Words(line)| >= 2 && '/' in Words(line)[1] ==>
      && ParseAddressLine(line).Success?
      && SplitsAddressToken(Words(line)[1], ParseAddressLine(line).value.0, ParseAddressLine(line).value.1)
  {
    var info := Words(line);
    if |info| >= 2 {
      var token := info[1];
      SplitOnCount(token, '/');
      if '/' in token {
        SplitOnFirstTwo(token, '/');
      } else {
        assert multiset(token)['/'] == 0;
      }
    }
  }

  /** Round trip: when the address word holds exactly one '/', the address
      and the prefix joined again by '/' give back that word. */
  lemma {:induction false} AddressRoundTrip(line: string)
    requires |Words(line)| >= 2 && multiset(Words(line)[1])['/'] == 1
    ensures ParseAddressLine(line).Success?
    ensures ParseAddressLine(line).value.0 + "/" + ParseAddressLine(line).value.1 == Words(line)[1]
  {
    var token := Words(line)[1];
    SplitOnCount(token, '/');
    JoinSplitOn(token, '/');
    var pieces := SplitOn(token, '/');
    assert Join(pieces, "/") == pieces[0] + "/" + pieces[1];
  }

  /** The address part fails with "No IP address found" exactly when
      "inet " occurs nowhere in the output. */
  lemma {:induction false} NoAddressIffNoMarker(output: string)
    ensures ParseAddress(output) == Failure(NoIpAddressFound) <==> !Contains(output, InetMarker)
  {
    LinesContain(output, InetMarker);
    var ipLines := LinesContaining(SplitLines(output), InetMarker);
    if ipLines != [] {
      AddressLineOutcome(ipLines[0]);
    }
  }

  /** Only the first line that contains "inet " is read, whatever follows it. */
  lemma {:induction false} FirstMarkedLineIsRead(output: string, k: nat)
    requires k < |SplitLines(output)| && Contains(SplitLines(output)[k], InetMarker)
    requires forall j | 0 <= j < k :: !Contains(SplitLines(output)[j], InetMarker)
    ensures ParseAddress(output) == ParseAddressLine(SplitLines(output)[k])
  {
    FirstContaining(SplitLines(output), InetMarker, k);
  }

  /** A line in which every "inet" is followed by '6' (an IPv6 address
      line) never qualifies as an address line. */
  lemma {:induction false} Inet6LineNeverQualifies(line: string)
    requires forall i | 0 <= i && i + 4 < |line| && OccursAt(line, "inet", i) :: line[i + 4] == '6'
    ensures !Contains(line, InetMarker)
  {
    if Contains(line, InetMarker) {
      var i :| 0 <= i <= |line| - 5 && OccursAt(line, InetMarker, i);
      MarkerIsInetThenSpace(line, i);
    }
  }

  /** An occurrence of "inet " is an occurrence of "inet" followed by a space. */
  lemma {:induction false} MarkerIsInetThenSpace(line: string, i: nat)
    requires OccursAt(line, InetMarker, i)
    ensures OccursAt(line, "inet", i) && line[i + 4] == ' '
  {
    forall j | 0 <= j < 4 ensures line[i + j] == "inet"[j] {
      assert line[i + j] == InetMarker[j];
    }
    assert line[i + 4] == InetMarker[4];
  }

  /** A typical address line: indentation, then words separated by single
      spaces, the second being "<address>/<prefix>". */
  lemma {:induction false} AddressLineOfWords(indent: string, words: seq<string>, ip: string, mask: string)
    requires AllSpace(indent)
    requires forall k | 0 <= k < |words| :: words[k] != [] && NoSpace(words[k])
    requires |words| >= 2 && words[1] == ip + "/" + mask && '/' !in ip && '/' !in mask
    ensures ParseAddressLine(indent + Join(words, " ")) == Success((ip, mask))
  {
    WordsSkipLeadingSpace(indent, Join(words, " "));
    WordsOfJoin(words);
    assert Join([ip, mask], "/") == ip + "/" + mask;
    SplitOnJoin([ip, mask], '/');
  }

  /** A one-line address listing "<indent>inet <address>/<prefix> ...", ended
      by a newline, yields that address and prefix. */
  lemma {:induction false} AddressListingOfWords(indent: string, words: seq<string>, ip: string, mask: string)
    requires AllSpace(indent) && NoLineBreak(indent)
    requires forall k | 0 <= k < |words| :: words[k] != [] && NoSpace(words[k]) && NoLineBreak(words[k])
    requires |words| >= 2 && words[0] == "inet"
    requires words[1] == ip + "/" + mask && '/' !in ip && '/' !in mask
    ensures ParseAddress(indent + Join(words, " ") + "\n") == Success((ip, mask))
  {
    var line := indent + Join(words, " ");
    SingleListingLine(indent, words);
    MarkerAfterIndent(indent, words);
    FirstMarkedLineIsRead(line + "\n", 0);
    AddressLineOfWords(indent, words, ip, mask);
  }

  /** An indented line of words, ended by a newline, is a single line. */
  lemma {:induction false} SingleListingLine(indent: string, words: seq<string>)
    requires NoLineBreak(indent)
    requires forall k | 0 <= k < |words| :: NoLineBreak(words[k])
    ensures SplitLines(indent + Join(words, " ") + "\n") == [indent + Join(words, " ")]
  {
    var text := Join(words, " ");
    var line := indent + text;
    JoinNoLineBreak(words, " ");
    forall i | 0 <= i < |line| ensures !IsLineBreak(line[i]) {
      if i < |indent| {
        assert line[i] == indent[i];
      } else {
        assert line[i] == text[i - |indent|];
      }
    }
    SplitLinesTerminated([line]);
    assert Terminated([line]) == line + "\n";
  }

  /** In an indented line whose first word is "inet", "inet " starts right
      after the indentation. */
  lemma {:induction false} MarkerAfterIndent(indent: string, words: seq<string>)
    requires |words| >= 2 && words[0] == "inet"
    ensures Contains(indent + Join(words, " "), InetMarker)
  {
    var text := Join(words, " ");
    var line := indent + text;
    assert text == "inet" + " " + Join(words[1..], " ");
    forall j | 0 <= j < |InetMarker| ensures line[|indent| + j] == InetMarker[j] {
      assert line[|indent| + j] == text[j];
    }
    assert OccursAt(line, InetMarker, |indent|);
  }

  // ---------------------------------------------------------------------
  // What the gateway parser computes
  // ---------------------------------------------------------------------

  /** The gateway is absent exactly for an all-whitespace route text; a
      text of one or two words is an error; otherwise the gateway is the
      third word. Stripping first changes none of this. */
  lemma {:induction false} GatewayOutcome(routeOutput: string)
    ensures AllSpace(routeOutput) <==> ParseGateway(routeOutput) == Success(None)
    ensures !AllSpace(routeOutput) && |Words(routeOutput)| < 3 ==>
      ParseGateway(routeOutput) == Failure(GatewayTokenMissing)
    ensures |Words(routeOutput)| >= 3 ==> ParseGateway(routeOutput) == Success(Some(Words(routeOutput)[2]))
  {
    WordsOfStrip(routeOutput);
    WordsEmptyIffAllSpace(routeOutput);
  }

  /** A route line "default via <gateway> dev <iface> ...", ended by a
      newline, yields its third word as the gateway. */
  lemma {:induction false} GatewayOfRouteLine(words: seq<string>)
    requires |words| >= 3
    requires forall k | 0 <= k < |words| :: words[k] != [] && NoSpace(words[k])
    ensures ParseGateway(Join(words, " ") + "\n") == Success(Some(words[2]))
  {
    WordsSkipTrailingSpace(Join(words, " "), '\n');
    WordsOfJoin(words);
    GatewayOutcome(Join(words, " ") + "\n");
  }
}
