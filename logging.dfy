/**
 * Logging configuration and request records: the operational sinks chosen
 * from `log_outputs`, initialisation that takes effect once, the
 * operational-logger accessor, and the structured per-request record with
 * its body truncated at 4096 bytes.
 */
module Logging {
  import opened Wrappers
  import opened Config

  /** An operational log destination. File sinks open their file in truncating mode. */
  datatype SinkKind = StdoutSink | StderrSink | FileSink(path: string)

  datatype LoggingError = FileOutputWithoutPath | UnknownOutput(kind: string)

  /** The operational logger: its sinks, its level name and its line pattern. */
  datatype OperationalLogger = OperationalLogger(sinks: seq<SinkKind>, level: string, pattern: string)

  predicate KnownOutput(kind: string)
  {
    kind == "stdout" || kind == "stderr" || kind == "file"
  }

  /** The sink a valid output kind stands for. */
  function SinkFor(kind: string, logFilePath: string): SinkKind
    requires KnownOutput(kind)
  {
    if kind == "stdout" then StdoutSink
    else if kind == "stderr" then StderrSink
    else FileSink(logFilePath)
  }

  /** The error for one output kind, if it is unusable with this log file path. */
  function OutputError(kind: string, logFilePath: string): (r: Option<LoggingError>)
    ensures r.None? <==> KnownOutput(kind) && (kind == "file" ==> logFilePath != "")
    ensures kind == "file" && logFilePath == "" ==> r == Some(FileOutputWithoutPath)
    ensures !KnownOutput(kind) ==> r == Some(UnknownOutput(kind))
  {
    if kind == "stdout" || kind == "stderr" then None
    else if kind == "file" then (if logFilePath == "" then Some(FileOutputWithoutPath) else None)
    else Some(UnknownOutput(kind))
  }

  /** One sink per listed output, in order; the first unusable output is the error. */
  function SinksFor(outputs: seq<string>, logFilePath: string): (r: Result<seq<SinkKind>, LoggingError>)
    ensures r.Ok? <==> forall i :: 0 <= i < |outputs| ==> OutputError(outputs[i], logFilePath).None?
    ensures r.Ok? ==> |r.value| == |outputs|
                      && forall i :: 0 <= i < |outputs| ==> r.value[i] == SinkFor(outputs[i], logFilePath)
    ensures r.Err? ==> exists i :: 0 <= i < |outputs|
                          && OutputError(outputs[i], logFilePath) == Some(r.error)
                          && forall k :: 0 <= k < i ==> OutputError(outputs[k], logFilePath).None?
  {
    if |outputs| == 0 then Ok([])
    else match OutputError(outputs[0], logFilePath)
      case Some(e) => Err(e)
      case None =>
        match SinksFor(outputs[1..], logFilePath)
        case Err(e) =>
          assert forall i :: 1 <= i < |outputs| ==> outputs[1..][i - 1] == outputs[i];
          Err(e)
        case Ok(rest) =>
          assert forall i :: 1 <= i < |outputs| ==> outputs[1..][i - 1] == outputs[i];
          Ok([SinkFor(outputs[0], logFilePath)] + rest)
  }

  /** The operational sinks: stdout alone when no output is listed. */
  function SelectSinks(outputs: seq<string>, logFilePath: string): (r: Result<seq<SinkKind>, LoggingError>)
    ensures outputs == [] ==> r == Ok([StdoutSink])
    ensures outputs != [] ==> r == SinksFor(outputs, logFilePath)
  {
    if outputs == [] then Ok([StdoutSink]) else SinksFor(outputs, logFilePath)
  }

  /** The sink-building loop: appends one sink per output and stops at the first unusable one. */
  method BuildSinks(outputs: seq<string>, logFilePath: string) returns (r: Result<seq<SinkKind>, LoggingError>)
    ensures r == SelectSinks(outputs, logFilePath)
  {
    if |outputs| == 0 {
      return Ok([StdoutSink]);
    }
    var sinks: seq<SinkKind> := [];
    var i := 0;
    while i < |outputs|
      invariant 0 <= i <= |outputs|
      invariant forall k :: 0 <= k < i ==> OutputError(outputs[k], logFilePath).None?
      invariant |sinks| == i && forall k :: 0 <= k < i ==> sinks[k] == SinkFor(outputs[k], logFilePath)
    {
      var kind := outputs[i];
      if kind == "stdout" {
        sinks := sinks + [StdoutSink];
      } else if kind == "stderr" {
        sinks := sinks + [StderrSink];
      } else if kind == "file" {
        if logFilePath == "" {
          SinksForFirstError(outputs, logFilePath, i);
          return Err(FileOutputWithoutPath);
        }
        sinks := sinks + [FileSink(logFilePath)];
      } else {
        SinksForFirstError(outputs, logFilePath, i);
        return Err(UnknownOutput(kind));
      }
      i := i + 1;
    }
    assert sinks == SinksFor(outputs, logFilePath).value;
    r := Ok(sinks);
  }

  /** The first unusable output decides the error. */
  lemma {:induction false} SinksForFirstError(outputs: seq<string>, logFilePath: string, i: nat)
    requires i < |outputs| && OutputError(outputs[i], logFilePath).Some?
    requires forall k :: 0 <= k < i ==> OutputError(outputs[k], logFilePath).None?
    ensures SinksFor(outputs, logFilePath) == Err(OutputError(outputs[i], logFilePath).value)
  {
    if i > 0 {
      var tail := outputs[1..];
      assert tail[i - 1] == outputs[i];
      forall k | 0 <= k < i - 1 ensures OutputError(tail[k], logFilePath).None? {
        assert tail[k] == outputs[k + 1];
      }
      SinksForFirstError(tail, logFilePath, i - 1);
    }
  }

  // ---------------------------------------------------------------------------
  // Request records

  const MaxBodyLogSize: nat := 4096

  /** The logged body: the first 4096 bytes when longer, with the truncation flag. */
  function TruncateBody(body: string): (r: (string, bool))
    ensures r.1 <==> |body| > MaxBodyLogSize
    ensures |r.0| == if |body| > MaxBodyLogSize then MaxBodyLogSize else |body|
    ensures r.0 <= body
  {
    if |body| > MaxBodyLogSize then (body[..MaxBodyLogSize], true) else (body, false)
  }

  function ToLowerAscii(c: char): char
  {
    if 'A' <= c <= 'Z' then (c as int + 32) as char else c
  }

  predicate EqualsIgnoreCase(a: string, b: string)
  {
    |a| == |b| && forall i :: 0 <= i < |a| ==> ToLowerAscii(a[i]) == ToLowerAscii(b[i])
  }

  /** The value of the first header whose name matches `name` without regard to ASCII case. */
  function HeaderValue(headers: seq<(string, string)>, name: string): (r: Option<string>)
    ensures r.None? <==> forall i :: 0 <= i < |headers| ==> !EqualsIgnoreCase(headers[i].0, name)
    ensures r.Some? ==> exists i :: 0 <= i < |headers| && EqualsIgnoreCase(headers[i].0, name) && headers[i].1 == r.value
  {
    if |headers| == 0 then None
    else if EqualsIgnoreCase(headers[0].0, name) then Some(headers[0].1)
    else
      var r := HeaderValue(headers[1..], name);
      assert forall i :: 1 <= i < |headers| ==> headers[1..][i - 1] == headers[i];
      r
  }

  /** What the request logger sees of a request. */
  datatype RequestInfo = RequestInfo(remoteIp: string, httpMethod: string, url: string,
                                     headers: seq<(string, string)>, body: string)

  /** One request-log record; `timestamp` is the UTC wall-clock time formatted to the second. */
  datatype LogEntry = LogEntry(timestamp: string, sourceIp: string, httpMethod: string, url: string,
                               headers: seq<(string, string)>, userAgent: Option<string>,
                               body: string, bodyTruncated: bool, responseStatus: int)

  function RequestLogEntry(request: RequestInfo, status: int, timestamp: string): (e: LogEntry)
    ensures e.body <= request.body && |e.body| <= MaxBodyLogSize
    ensures e.bodyTruncated <==> |request.body| > MaxBodyLogSize
    ensures !e.bodyTruncated ==> e.body == request.body
    ensures e.responseStatus == status
    ensures e.userAgent == HeaderValue(request.headers, "User-Agent")
  {
    var (body, truncated) := TruncateBody(request.body);
    LogEntry(timestamp, request.remoteIp, request.httpMethod, request.url, request.headers,
             HeaderValue(request.headers, "User-Agent"), body, truncated, status)
  }

  // ---------------------------------------------------------------------------
  // The process-wide logging state

  class LoggingSubsystem {
    var initialized: bool
    var operational: Option<OperationalLogger>
    /** The request log's file path while request logging is enabled. */
    var requestLog: Option<string>

    ghost predicate Valid()
      reads this
    {
      && (initialized <==> operational.Some?)
      && (!initialized ==> requestLog.None?)
    }

    constructor ()
      ensures Valid()
      ensures !initialized && operational.None? && requestLog.None?
    {
      initialized := false;
      operational := None;
      requestLog := None;
    }

    /**
     * Sets up both loggers from the configuration. A second call does
     * nothing; an invalid output list fails and leaves logging uninitialised.
     */
    method InitLogging(config: HoneypotConfig) returns (r: Result<(), LoggingError>)
      requires Valid()
      modifies this
      ensures Valid()
      ensures old(initialized) ==> r.Ok? && unchanged(this)
      ensures !old(initialized) ==>
                match SelectSinks(config.logging.logOutputs, config.logging.logFilePath)
                case Err(e) => r == Err(e) && unchanged(this)
                case Ok(sinks) =>
                  && r.Ok? && initialized
                  && operational == Some(OperationalLogger(sinks, config.logging.logLevel, config.logging.logPattern))
                  && requestLog == (if config.logging.requestLogPath == "" then None
                                    else Some(config.logging.requestLogPath))
    {
      if initialized {
        return Ok(());
      }
      var sinks :- BuildSinks(config.logging.logOutputs, config.logging.logFilePath);
      operational := Some(OperationalLogger(sinks, config.logging.logLevel, config.logging.logPattern));
      if config.logging.requestLogPath == "" {
        requestLog := None;
      } else {
        requestLog := Some(config.logging.requestLogPath);
      }
      initialized := true;
      r := Ok(());
    }

    /** The operational logger; asking before a successful initialisation is an error. */
    method GetOperationalLogger() returns (r: Result<OperationalLogger, string>)
      ensures r.Ok? <==> initialized && operational.Some?
      ensures r.Ok? ==> r.value == operational.value
    {
      if !initialized || operational.None? {
        return Err("Operational logger requested before successful initialization.");
      }
      r := Ok(operational.value);
    }

    /** The record written for a request, or nothing while request logging is disabled. */
    method LogRequest(request: RequestInfo, status: int, timestamp: string) returns (entry: Option<LogEntry>)
      ensures entry.None? <==> requestLog.None?
      ensures entry.Some? ==> entry.value == RequestLogEntry(request, status, timestamp)
    {
      if requestLog.None? {
        return None;
      }
      entry := Some(RequestLogEntry(request, status, timestamp));
    }
  }

  /** Initialisation succeeds exactly when every listed output is usable. */
  lemma InitSucceedsIff(outputs: seq<string>, logFilePath: string)
    ensures SelectSinks(outputs, logFilePath).Ok?
            <==> forall i :: 0 <= i < |outputs| ==> (KnownOutput(outputs[i]) && (outputs[i] == "file" ==> logFilePath != ""))
  {
  }

  /** The default configuration logs to stdout alone. */
  lemma DefaultLoggingIsStdout()
    ensures SelectSinks(DefaultLoggingConfig.logOutputs, DefaultLoggingConfig.logFilePath) == Ok([StdoutSink])
  {
    var outputs := DefaultLoggingConfig.logOutputs;
    assert outputs == ["stdout"] && outputs[1..] == [];
    var path := DefaultLoggingConfig.logFilePath;
    assert SinksFor(outputs[1..], path) == Ok([]);
    assert OutputError(outputs[0], path) == None && SinkFor(outputs[0], path) == StdoutSink;
    assert SinksFor(outputs, path) == Ok([StdoutSink] + []);
    assert [StdoutSink] + [] == [StdoutSink];
    assert SelectSinks(outputs, path) == SinksFor(outputs, path);
  }

  /** Truncation keeps the whole body when it fits and otherwise exactly its first 4096 bytes. */
  lemma TruncationKeepsPrefix(body: string)
    ensures var (logged, truncated) := TruncateBody(body);
            && (truncated ==> logged + body[MaxBodyLogSize..] == body)
            && (!truncated ==> logged == body)
            && TruncateBody(logged) == (logged, false)
  {
    var logged := TruncateBody(body).0;
    if |body| > MaxBodyLogSize {
      assert logged + body[MaxBodyLogSize..] == body;
    }
  }
}
