/** Choosing the SQL dialect from the scheme of the connection URL (anydb-sql.js, `extractDialect`). */
module Dialect {

  /** A URL scheme as the URL parser reports it: non-empty and ending in `:`. */
  type Protocol = s: string | |s| > 0 && s[|s| - 1] == ':' witness ":"

  /**
   * The dialect named by a scheme: the scheme without its trailing `:`, except
   * that `sqlite3` is renamed `sqlite`.
   */
  function ExtractDialect(protocol: Protocol): (d: string)
    ensures d == "sqlite" <==> protocol == "sqlite3:" || protocol == "sqlite:"
    ensures protocol != "sqlite3:" ==> d + ":" == protocol
  {
    var scheme := protocol[..|protocol| - 1];
    if scheme == "sqlite3" then "sqlite" else scheme
  }
}
