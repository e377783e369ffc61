/**
 * The packet-drop log parser (drop/parser.go): keep only the lines carrying the
 * configured marker token, split them on white space, build a four-field
 * `PacketDrop` from the first two tokens and the `SRC=`/`DST=` tokens, and forward
 * the record unless it is already expired.
 *
 * The channel the parser sends into is modelled as the sequence of drops sent.
 * `time.Now()` is a parameter `now` and `time.Parse` of the fixed log-time layout is
 * an abstract partial function `parseTime` from the log-time text to nanoseconds.
 */
module DropParser {
  import opened Wrappers
  import opened Text
  import Envar

  const FieldSrcIP := "SRC"
  const FieldDstIP := "DST"

  /** The number of fields of `PacketDrop`: the least number of tokens of a drop log. */
  const FieldCount := 4

  datatype PacketDrop = PacketDrop(logTime: string, hostName: string, srcIP: string, dstIP: string)

  /** `time.Parse(PacketDropLogTimeLayout, _)`: nanoseconds since the epoch, or nothing. */
  type TimeParser = string -> Option<int>

  /**
   * A drop is expired when its log time cannot be parsed, or when more than the
   * expiration window has passed between its log time and `now`.
   */
  predicate IsExpired(pd: PacketDrop, now: int, expirationMinutes: int, parseTime: TimeParser)
    ensures parseTime(pd.logTime).Some? && expirationMinutes >= 0 && now <= parseTime(pd.logTime).value ==>
      !IsExpired(pd, now, expirationMinutes, parseTime)
  {
    match parseTime(pd.logTime)
    case None => true
    case Some(logTime) => now - logTime > expirationMinutes * Envar.NanosPerMinute
  }

  /** Once a drop is expired it stays expired as time goes on. */
  lemma ExpiryIsMonotone(pd: PacketDrop, now: int, later: int, expirationMinutes: int, parseTime: TimeParser)
    requires now <= later
    requires IsExpired(pd, now, expirationMinutes, parseTime)
    ensures IsExpired(pd, later, expirationMinutes, parseTime)
  {
  }

  /** The window is closed: a drop exactly one window old is still fresh, one nanosecond more is not. */
  lemma ExpiryBoundary(pd: PacketDrop, logTime: int, expirationMinutes: int, parseTime: TimeParser)
    requires parseTime(pd.logTime) == Some(logTime)
    ensures !IsExpired(pd, logTime + expirationMinutes * Envar.NanosPerMinute, expirationMinutes, parseTime)
    ensures IsExpired(pd, logTime + expirationMinutes * Envar.NanosPerMinute + 1, expirationMinutes, parseTime)
  {
  }

  /** An unparsable log time makes a drop expired whatever the clock says. */
  lemma UnparsableTimeIsExpired(pd: PacketDrop, now: int, expirationMinutes: int, parseTime: TimeParser)
    requires parseTime(pd.logTime).None?
    ensures IsExpired(pd, now, expirationMinutes, parseTime)
  {
  }

  /** A log is a packet-drop log when one of its white-space separated tokens is exactly the marker. */
  method IsRequiredPacketDropLog(logPrefix: string, log: string) returns (required: bool)
    ensures required <==> logPrefix in Fields(log)
  {
    var fields := Fields(log);
    var i := 0;
    while i < |fields|
      invariant 0 <= i <= |fields|
      invariant logPrefix !in fields[..i]
    {
      if fields[i] == logPrefix {
        return true;
      }
      i := i + 1;
    }
    assert fields[..i] == fields;
    return false;
  }

  /** The tokens of a log, provided there are at least `FieldCount` of them. */
  function GetPacketDropLogFields(packetDropLog: string): (r: Result<seq<string>>)
    ensures r.Success? <==> |Fields(packetDropLog)| >= FieldCount
    ensures r.Success? ==> r.value == Fields(packetDropLog)
  {
    var logFields := Fields(packetDropLog);
    if |logFields| < FieldCount then Failure("Invalid packet drop: log=" + packetDropLog)
    else Success(logFields)
  }

  /** Index of the first token that starts with `name`. */
  function FirstWithPrefix(fields: seq<string>, name: string): (r: Option<nat>)
    ensures r.Some? ==> r.value < |fields| && HasPrefix(fields[r.value], name)
    ensures r.Some? ==> forall j :: 0 <= j < r.value ==> !HasPrefix(fields[j], name)
    ensures r.None? ==> forall j :: 0 <= j < |fields| ==> !HasPrefix(fields[j], name)
  {
    if fields == [] then None
    else if HasPrefix(fields[0], name) then Some(0)
    else match FirstWithPrefix(fields[1..], name)
      case None => None
      case Some(k) => Some(k + 1)
  }

  /**
   * The value of a named field: the second `=`-separated piece of the first token
   * starting with the name; an error when no token starts with the name, or when
   * that token holds no `=`.
   */
  function FieldValue(logFields: seq<string>, fieldName: string): Result<string>
  {
    match FirstWithPrefix(logFields, fieldName)
    case None => Failure("Missing field=" + fieldName)
    case Some(k) =>
      var fieldStrs := SplitOn(logFields[k], '=');
      if |fieldStrs| < 2 then Failure("Missing value: field=" + fieldName)
      else Success(fieldStrs[1])
  }

  /** The loop of getFieldValue, which stops at the first token carrying the prefix. */
  method GetFieldValue(logFields: seq<string>, fieldName: string) returns (r: Result<string>)
    ensures r == FieldValue(logFields, fieldName)
  {
    var i := 0;
    while i < |logFields|
      invariant 0 <= i <= |logFields|
      invariant forall j :: 0 <= j < i ==> !HasPrefix(logFields[j], fieldName)
    {
      if HasPrefix(logFields[i], fieldName) {
        var fieldStrs := SplitOn(logFields[i], '=');
        if |fieldStrs| < 2 {
          return Failure("Missing value: field=" + fieldName);
        }
        return Success(fieldStrs[1]);
      }
      i := i + 1;
    }
    return Failure("Missing field=" + fieldName);
  }

  /**
   * What getFieldValue finds, in terms of the token text: nothing when no token has
   * the prefix, "Missing value" when that token has no `=`, and otherwise the text
   * between its first and its second `=` (or its end).
   */
  lemma FieldValueIsTextAfterFirstEquals(logFields: seq<string>, fieldName: string)
    ensures FirstWithPrefix(logFields, fieldName).None? ==>
      FieldValue(logFields, fieldName) == Failure("Missing field=" + fieldName)
    ensures FirstWithPrefix(logFields, fieldName).Some? ==>
      var field := logFields[FirstWithPrefix(logFields, fieldName).value];
      && ('=' !in field ==> FieldValue(logFields, fieldName) == Failure("Missing value: field=" + fieldName))
      && ('=' in field ==>
            var rest := field[IndexOf(field, '=').value + 1..];
            FieldValue(logFields, fieldName) ==
              Success(match IndexOf(rest, '=') case None => rest case Some(j) => rest[..j]))
  {
    match FirstWithPrefix(logFields, fieldName)
    case None =>
    case Some(k) => SecondPiece(logFields[k], '=');
  }

  /** The drop record of a log line: first token, second token, and the SRC and DST values. */
  function PacketDropOf(packetDropLog: string): Result<PacketDrop>
  {
    var logFields :- GetPacketDropLogFields(packetDropLog);
    var srcIP :- FieldValue(logFields, FieldSrcIP);
    var dstIP :- FieldValue(logFields, FieldDstIP);
    Success(PacketDrop(logFields[0], logFields[1], srcIP, dstIP))
  }

  method GetPacketDrop(packetDropLog: string) returns (r: Result<PacketDrop>)
    ensures r == PacketDropOf(packetDropLog)
  {
    var logFields := GetPacketDropLogFields(packetDropLog);
    if logFields.Failure? {
      return Failure(logFields.error);
    }
    var fields := logFields.value;
    var logTime, hostName := fields[0], fields[1];
    var srcIP := GetFieldValue(fields, FieldSrcIP);
    if srcIP.Failure? {
      return Failure(srcIP.error);
    }
    var dstIP := GetFieldValue(fields, FieldDstIP);
    if dstIP.Failure? {
      return Failure(dstIP.error);
    }
    return Success(PacketDrop(logTime, hostName, srcIP.value, dstIP.value));
  }

  /** What parsing one line does: ignore it, reject it with an error, drop it as expired, or send it. */
  datatype ParseOutcome = NotRequired | Invalid(error: string) | Expired(drop: PacketDrop) | Fresh(drop: PacketDrop) {
    /** The error `parse` returns. */
    function Error(): Option<string> {
      if Invalid? then Some(error) else None
    }
    /** What `parse` sends on the drop channel. */
    function Sent(): seq<PacketDrop> {
      if Fresh? then [drop] else []
    }
  }

  function ParseLog(logPrefix: string, log: string, now: int, expirationMinutes: int, parseTime: TimeParser): ParseOutcome
  {
    if logPrefix !in Fields(log) then NotRequired
    else match PacketDropOf(log)
      case Failure(e) => Invalid(e)
      case Success(pd) => if IsExpired(pd, now, expirationMinutes, parseTime) then Expired(pd) else Fresh(pd)
  }

  method Parse(logPrefix: string, log: string, now: int, expirationMinutes: int, parseTime: TimeParser)
    returns (err: Option<string>, sent: seq<PacketDrop>)
    ensures err == ParseLog(logPrefix, log, now, expirationMinutes, parseTime).Error()
    ensures sent == ParseLog(logPrefix, log, now, expirationMinutes, parseTime).Sent()
  {
    var required := IsRequiredPacketDropLog(logPrefix, log);
    if !required {
      return None, [];
    }
    var packetDrop := GetPacketDrop(log);
    if packetDrop.Failure? {
      return Some(packetDrop.error), [];
    }
    sent := [];
    if !IsExpired(packetDrop.value, now, expirationMinutes, parseTime) {
      sent := [packetDrop.value];
    }
    return None, sent;
  }

  /** A line without the exact marker token is neither an error nor a drop. */
  lemma UnmarkedLogIgnored(logPrefix: string, log: string, now: int, expirationMinutes: int, parseTime: TimeParser)
    requires logPrefix !in Fields(log)
    ensures ParseLog(logPrefix, log, now, expirationMinutes, parseTime).Error() == None
    ensures ParseLog(logPrefix, log, now, expirationMinutes, parseTime).Sent() == []
  {
  }

  /** A marked line with fewer than four tokens is rejected and sends nothing. */
  lemma ShortLogRejected(logPrefix: string, log: string, now: int, expirationMinutes: int, parseTime: TimeParser)
    requires logPrefix in Fields(log)
    requires |Fields(log)| < FieldCount
    ensures ParseLog(logPrefix, log, now, expirationMinutes, parseTime) == Invalid("Invalid packet drop: log=" + log)
    ensures ParseLog(logPrefix, log, now, expirationMinutes, parseTime).Sent() == []
  {
  }

  /** A marked line of four or more tokens lacking a SRC token, or else a DST token, is rejected. */
  lemma MissingAddressRejected(logPrefix: string, log: string, now: int, expirationMinutes: int, parseTime: TimeParser)
    requires logPrefix in Fields(log)
    requires |Fields(log)| >= FieldCount
    ensures FirstWithPrefix(Fields(log), FieldSrcIP).None? ==>
      ParseLog(logPrefix, log, now, expirationMinutes, parseTime) == Invalid("Missing field=SRC")
    ensures FieldValue(Fields(log), FieldSrcIP).Success? && FirstWithPrefix(Fields(log), FieldDstIP).None? ==>
      ParseLog(logPrefix, log, now, expirationMinutes, parseTime) == Invalid("Missing field=DST")
  {
  }

  /**
   * A parsed drop takes its log time and host name from the first two tokens and its
   * addresses from the SRC and DST tokens; it is sent exactly when it is not expired.
   */
  lemma ParsedDropComesFromTokens(logPrefix: string, log: string, now: int, expirationMinutes: int, parseTime: TimeParser)
    requires ParseLog(logPrefix, log, now, expirationMinutes, parseTime).Fresh?
          || ParseLog(logPrefix, log, now, expirationMinutes, parseTime).Expired?
    ensures var pd := ParseLog(logPrefix, log, now, expirationMinutes, parseTime).drop;
      && logPrefix in Fields(log)
      && |Fields(log)| >= FieldCount
      && pd.logTime == Fields(log)[0]
      && pd.hostName == Fields(log)[1]
      && FieldValue(Fields(log), FieldSrcIP) == Success(pd.srcIP)
      && FieldValue(Fields(log), FieldDstIP) == Success(pd.dstIP)
      && (ParseLog(logPrefix, log, now, expirationMinutes, parseTime).Sent() == [pd]
          <==> !IsExpired(pd, now, expirationMinutes, parseTime))
  {
  }

  /**
   * Conversely, a marked line of four or more tokens whose SRC and DST fields have values
   * parses to the drop built from them, sent exactly when it is not expired.
   */
  lemma ParseOfTokens(logPrefix: string, log: string, srcIP: string, dstIP: string,
                      now: int, expirationMinutes: int, parseTime: TimeParser)
    requires logPrefix in Fields(log)
    requires |Fields(log)| >= FieldCount
    requires FieldValue(Fields(log), FieldSrcIP) == Success(srcIP)
    requires FieldValue(Fields(log), FieldDstIP) == Success(dstIP)
    ensures var pd := PacketDrop(Fields(log)[0], Fields(log)[1], srcIP, dstIP);
      ParseLog(logPrefix, log, now, expirationMinutes, parseTime)
        == if IsExpired(pd, now, expirationMinutes, parseTime) then Expired(pd) else Fresh(pd)
  {
  }

  /** A `name=value` token of a drop line is one word when its two parts are. */
  lemma AssignmentIsWord(name: string, value: string)
    requires IsWord(name) && IsWord(value)
    ensures IsWord(name + "=" + value)
  {
    var w := name + "=" + value;
    forall i | 0 <= i < |w| ensures !IsSpace(w[i]) {
      if i < |name| { assert w[i] == name[i]; }
      else if i > |name| { assert w[i] == value[i - |name| - 1]; }
    }
  }

  /** The value of field `name` in tokens whose first token starting with `name` is `name=value`. */
  lemma FieldValueOfAssignment(ws: seq<string>, name: string, value: string, k: nat)
    requires k < |ws| && ws[k] == name + "=" + value
    requires '=' !in name && '=' !in value
    requires forall j :: 0 <= j < k ==> !HasPrefix(ws[j], name)
    ensures FieldValue(ws, name) == Success(value)
  {
    assert ws[k][..|name|] == name;
    assert FirstWithPrefix(ws, name) == Some(k);
    assert ws[k] == name + ['='] + value;
    SplitOfAssignment(name, '=', value);
  }

  /** The SRC and DST values of the tokens `t h m SRC=s DST=d` are s and d. */
  lemma DropLineFieldValues(ws: seq<string>, srcIP: string, dstIP: string)
    requires |ws| == 5 && ws[3] == FieldSrcIP + "=" + srcIP && ws[4] == FieldDstIP + "=" + dstIP
    requires '=' !in srcIP && '=' !in dstIP
    requires forall j :: 0 <= j < 3 ==> !HasPrefix(ws[j], FieldSrcIP) && !HasPrefix(ws[j], FieldDstIP)
    ensures FieldValue(ws, FieldSrcIP) == Success(srcIP)
    ensures FieldValue(ws, FieldDstIP) == Success(dstIP)
  {
    FieldValueOfAssignment(ws, FieldSrcIP, srcIP, 3);
    assert !HasPrefix(ws[3], FieldDstIP) by { assert ws[3][0] != FieldDstIP[0]; }
    FieldValueOfAssignment(ws, FieldDstIP, dstIP, 4);
  }

  /**
   * Round trip: the line `t h m SRC=s DST=d` that the tests build parses back to
   * exactly `PacketDrop(t, h, s, d)` and is sent, when the parts hold no white space,
   * the addresses hold no `=`, none of t, h, m starts with SRC or DST, and t is fresh.
   */
  lemma {:induction false} ParseRoundTrip(logTime: string, hostName: string, logPrefix: string, srcIP: string, dstIP: string,
                                          now: int, expirationMinutes: int, parseTime: TimeParser)
    requires IsWord(logTime) && IsWord(hostName) && IsWord(logPrefix) && IsWord(srcIP) && IsWord(dstIP)
    requires '=' !in srcIP && '=' !in dstIP
    requires !HasPrefix(logTime, FieldSrcIP) && !HasPrefix(hostName, FieldSrcIP) && !HasPrefix(logPrefix, FieldSrcIP)
    requires !HasPrefix(logTime, FieldDstIP) && !HasPrefix(hostName, FieldDstIP) && !HasPrefix(logPrefix, FieldDstIP)
    requires !IsExpired(PacketDrop(logTime, hostName, srcIP, dstIP), now, expirationMinutes, parseTime)
    ensures ParseLog(logPrefix, Unwords([logTime, hostName, logPrefix, FieldSrcIP + "=" + srcIP, FieldDstIP + "=" + dstIP]),
                     now, expirationMinutes, parseTime)
            == Fresh(PacketDrop(logTime, hostName, srcIP, dstIP))
  {
    var src := FieldSrcIP + "=" + srcIP;
    var dst := FieldDstIP + "=" + dstIP;
    var ws := [logTime, hostName, logPrefix, src, dst];
    AssignmentIsWord(FieldSrcIP, srcIP);
    AssignmentIsWord(FieldDstIP, dstIP);
    FieldsOfUnwords(ws);
    var log := Unwords(ws);
    assert logPrefix in Fields(log) by { assert ws[2] == logPrefix; }
    DropLineFieldValues(ws, srcIP, dstIP);
    ParseOfTokens(logPrefix, log, srcIP, dstIP, now, expirationMinutes, parseTime);
  }

  /** What RunParsing sends for a sequence of lines, line i being parsed at time nows[i]. */
  function ParsedStream(logPrefix: string, logs: seq<string>, nows: seq<int>, expirationMinutes: int, parseTime: TimeParser)
    : seq<PacketDrop>
    requires |nows| == |logs|
  {
    if logs == [] then []
    else ParseLog(logPrefix, logs[0], nows[0], expirationMinutes, parseTime).Sent()
         + ParsedStream(logPrefix, logs[1..], nows[1..], expirationMinutes, parseTime)
  }

  /** One line of the parsing loop: the drops of the first line, then those of the rest. */
  lemma ParsedStreamStep(logPrefix: string, rest: seq<string>, restNows: seq<int>, expirationMinutes: int,
                         parseTime: TimeParser, sent: seq<PacketDrop>, all: seq<PacketDrop>)
    requires |restNows| == |rest| && rest != []
    requires sent + ParsedStream(logPrefix, rest, restNows, expirationMinutes, parseTime) == all
    ensures (sent + ParseLog(logPrefix, rest[0], restNows[0], expirationMinutes, parseTime).Sent())
            + ParsedStream(logPrefix, rest[1..], restNows[1..], expirationMinutes, parseTime) == all
  {
    AppendAssoc(sent, ParseLog(logPrefix, rest[0], restNows[0], expirationMinutes, parseTime).Sent(),
                ParsedStream(logPrefix, rest[1..], restNows[1..], expirationMinutes, parseTime));
  }

  /** The parsing loop: every line is parsed in turn; an error is reported and the loop goes on. */
  method RunParsing(logPrefix: string, logs: seq<string>, nows: seq<int>, expirationMinutes: int, parseTime: TimeParser)
    returns (sent: seq<PacketDrop>)
    requires |nows| == |logs|
    ensures sent == ParsedStream(logPrefix, logs, nows, expirationMinutes, parseTime)
  {
    sent := [];
    var rest, restNows := logs, nows;
    while rest != []
      invariant |restNows| == |rest|
      invariant sent + ParsedStream(logPrefix, rest, restNows, expirationMinutes, parseTime)
                == ParsedStream(logPrefix, logs, nows, expirationMinutes, parseTime)
      decreases |rest|
    {
      ParsedStreamStep(logPrefix, rest, restNows, expirationMinutes, parseTime, sent,
                       ParsedStream(logPrefix, logs, nows, expirationMinutes, parseTime));
      var parseErr, out := Parse(logPrefix, rest[0], restNows[0], expirationMinutes, parseTime);
      // a failed line is only reported; parsing continues with the next line
      sent := sent + out;
      rest, restNows := rest[1..], restNows[1..];
    }
  }

  /** Parsing is line by line: the drops of two batches of lines are the drops of each, in order. */
  lemma {:induction false} ParsedStreamAppend(logPrefix: string, logs1: seq<string>, nows1: seq<int>,
                                              logs2: seq<string>, nows2: seq<int>, expirationMinutes: int, parseTime: TimeParser)
    requires |nows1| == |logs1| && |nows2| == |logs2|
    ensures ParsedStream(logPrefix, logs1 + logs2, nows1 + nows2, expirationMinutes, parseTime)
         == ParsedStream(logPrefix, logs1, nows1, expirationMinutes, parseTime)
          + ParsedStream(logPrefix, logs2, nows2, expirationMinutes, parseTime)
  {
    if logs1 == [] {
      assert logs1 + logs2 == logs2;
      assert nows1 + nows2 == nows2;
    } else {
      assert (logs1 + logs2)[1..] == logs1[1..] + logs2;
      assert (nows1 + nows2)[1..] == nows1[1..] + nows2;
      ParsedStreamAppend(logPrefix, logs1[1..], nows1[1..], logs2, nows2, expirationMinutes, parseTime);
    }
  }

  /** A bad, unmarked or expired line between two batches contributes nothing and stops nothing. */
  lemma UnsentLogSkipped(logPrefix: string, logs1: seq<string>, nows1: seq<int>, log: string, now: int,
                         logs2: seq<string>, nows2: seq<int>, expirationMinutes: int, parseTime: TimeParser)
    requires |nows1| == |logs1| && |nows2| == |logs2|
    requires !ParseLog(logPrefix, log, now, expirationMinutes, parseTime).Fresh?
    ensures ParsedStream(logPrefix, logs1 + [log] + logs2, nows1 + [now] + nows2, expirationMinutes, parseTime)
         == ParsedStream(logPrefix, logs1, nows1, expirationMinutes, parseTime)
          + ParsedStream(logPrefix, logs2, nows2, expirationMinutes, parseTime)
  {
    var rest, restNows := [log] + logs2, [now] + nows2;
    assert rest[1..] == logs2 && restNows[1..] == nows2;
    assert ParseLog(logPrefix, rest[0], restNows[0], expirationMinutes, parseTime).Sent() == [];
    assert ParsedStream(logPrefix, rest, restNows, expirationMinutes, parseTime)
        == ParsedStream(logPrefix, logs2, nows2, expirationMinutes, parseTime);
    ParsedStreamAppend(logPrefix, logs1, nows1, rest, restNows, expirationMinutes, parseTime);
    assert logs1 + [log] + logs2 == logs1 + rest;
    assert nows1 + [now] + nows2 == nows1 + restNows;
  }

  /** Every drop sent was parsed, unexpired, from one of the lines at that line's own time. */
  lemma {:induction false} ParsedStreamSound(logPrefix: string, logs: seq<string>, nows: seq<int>,
                                             expirationMinutes: int, parseTime: TimeParser)
    requires |nows| == |logs|
    ensures forall pd :: pd in ParsedStream(logPrefix, logs, nows, expirationMinutes, parseTime) ==>
      exists i :: 0 <= i < |logs| && ParseLog(logPrefix, logs[i], nows[i], expirationMinutes, parseTime) == Fresh(pd)
                 && !IsExpired(pd, nows[i], expirationMinutes, parseTime)
  {
    if logs != [] {
      ParsedStreamSound(logPrefix, logs[1..], nows[1..], expirationMinutes, parseTime);
      forall pd | pd in ParsedStream(logPrefix, logs, nows, expirationMinutes, parseTime)
        ensures exists i :: 0 <= i < |logs| && ParseLog(logPrefix, logs[i], nows[i], expirationMinutes, parseTime) == Fresh(pd)
                           && !IsExpired(pd, nows[i], expirationMinutes, parseTime)
      {
        if pd in ParseLog(logPrefix, logs[0], nows[0], expirationMinutes, parseTime).Sent() {
          assert ParseLog(logPrefix, logs[0], nows[0], expirationMinutes, parseTime) == Fresh(pd);
        } else {
          var j :| 0 <= j < |logs| - 1 && ParseLog(logPrefix, logs[1..][j], nows[1..][j], expirationMinutes, parseTime) == Fresh(pd)
                   && !IsExpired(pd, nows[1..][j], expirationMinutes, parseTime);
          assert logs[1..][j] == logs[j + 1] && nows[1..][j] == nows[j + 1];
        }
      }
    }
  }
}
