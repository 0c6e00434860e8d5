/** The log sink the converter reports unknown token types to. */
module Logging {

  /** The converter only ever logs at warning level. */
  datatype LogLevel = Warn

  datatype LogEntry = LogEntry(level: LogLevel, message: string)

  class Logger {
    var entries: seq<LogEntry>

    constructor ()
      ensures entries == []
    {
      entries := [];
    }

    method Log(level: LogLevel, message: string)
      modifies this
      ensures entries == old(entries) + [LogEntry(level, message)]
    {
      entries := entries + [LogEntry(level, message)];
    }
  }

}
