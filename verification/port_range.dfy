/** `PortRange::from_str`: the `"start-end"` port range syntax. */
module PortRange {
  import opened Wrappers
  import opened Text

  /** Two `u16` port numbers; nothing orders them. */
  datatype PortRange = PortRange(start: nat, end: nat)

  datatype ParseError = InvalidFormat | InvalidStartPort | InvalidEndPort {
    function Message(): string {
      match this
      case InvalidFormat => "Invalid format"
      case InvalidStartPort => "Invalid start port"
      case InvalidEndPort => "Invalid end port"
    }
  }

  /** Splits on `-`; exactly two pieces are required, the start piece is
      checked before the end piece, and both must parse as `u16`. */
  function FromStr(s: string): (r: Result<PortRange, ParseError>)
    ensures r == Err(InvalidFormat) <==> Count(s, '-') != 1
    ensures r.Ok? ==> r.value.start <= U16_MAX && r.value.end <= U16_MAX
    ensures r.Ok? ==>
      exists i :: 0 <= i < |s| && s[i] == '-'
        && ParseU16(s[..i]) == Some(r.value.start)
        && ParseU16(s[i + 1..]) == Some(r.value.end)
  {
    var parts := Split(s, '-');
    if |parts| != 2 then Err(InvalidFormat)
    else
      match ParseU16(parts[0])
      case None => Err(InvalidStartPort)
      case Some(start) =>
        match ParseU16(parts[1])
        case None => Err(InvalidEndPort)
        case Some(end) =>
          JoinSplit(s, '-');
          assert s == parts[0] + ['-'] + parts[1];
          assert s[|parts[0]|] == '-' && s[..|parts[0]|] == parts[0] && s[|parts[0]| + 1..] == parts[1];
          Ok(PortRange(start, end))
  }

  /** Every pair of `u16` values written as `start-end` parses back to itself,
      whether or not `start <= end`. */
  lemma FromStrRoundTrip(start: nat, end: nat)
    requires start <= U16_MAX && end <= U16_MAX
    ensures FromStr(Decimal(start) + "-" + Decimal(end)) == Ok(PortRange(start, end))
  {
    var a, b := Decimal(start), Decimal(end);
    assert '-' !in a by { assert forall i :: 0 <= i < |a| ==> IsDigit(a[i]); }
    assert '-' !in b by { assert forall i :: 0 <= i < |b| ==> IsDigit(b[i]); }
    SplitTwo(a, b, '-');
    assert a + "-" + b == a + ['-'] + b;
    ParseDecimal(start, false, 0, U16_MAX);
    ParseDecimal(end, false, 0, U16_MAX);
  }

  /** With one `-`, a bad start piece is reported before the end piece is
      looked at, a good start with a bad end reports the end, and two good
      pieces give exactly the range they spell. */
  lemma FromStrErrorOrder(a: string, b: string)
    requires '-' !in a && '-' !in b
    ensures ParseU16(a).None? ==> FromStr(a + "-" + b) == Err(InvalidStartPort)
    ensures ParseU16(a).Some? && ParseU16(b).None? ==> FromStr(a + "-" + b) == Err(InvalidEndPort)
    ensures ParseU16(a).Some? && ParseU16(b).Some? ==>
      FromStr(a + "-" + b) == Ok(PortRange(ParseU16(a).value, ParseU16(b).value))
  {
    SplitTwo(a, b, '-');
    assert a + "-" + b == a + ['-'] + b;
  }
}
