/** The logging collaborator the controller drives: Spring Boot's
    `LogLevel` enumeration and the one register of `LoggingSystem` it
    touches, the configured level of the ROOT logger. */
module Logging {

  datatype LogLevel = TRACE | DEBUG | INFO | WARN | ERROR | FATAL | OFF

  /** How much a level lets through: OFF is the quietest, TRACE the loudest. */
  function Verbosity(level: LogLevel): nat {
    match level
    case OFF => 0
    case FATAL => 1
    case ERROR => 2
    case WARN => 3
    case INFO => 4
    case DEBUG => 5
    case TRACE => 6
  }

  /** Whether SLF4J's `Level` enumeration (ERROR, WARN, INFO, DEBUG, TRACE)
      has a constant of this name: `Level.valueOf(level.name())` throws
      `IllegalArgumentException` for FATAL and OFF. */
  predicate NamesSlf4jLevel(level: LogLevel) {
    level !in {FATAL, OFF}
  }

  /** The ROOT logger's configured level, read back exactly as last
      written (no backend mapping of levels). `rootWrites` counts the calls to
      `setLogLevel("ROOT", …)`, so that a proof can tell a write that leaves
      the level as it was from no write at all. */
  class LoggingSystem {
    var rootLevel: LogLevel
    ghost var rootWrites: nat

    constructor (initial: LogLevel)
      ensures rootLevel == initial && rootWrites == 0
    {
      rootLevel := initial;
      rootWrites := 0;
    }

    /** `setLogLevel("ROOT", level)` */
    method SetRootLevel(level: LogLevel)
      modifies this
      ensures rootLevel == level
      ensures rootWrites == old(rootWrites) + 1
    {
      rootLevel := level;
      rootWrites := rootWrites + 1;
    }
  }
}
