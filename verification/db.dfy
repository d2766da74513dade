/** The line-database front end's constructor, Db(url, cache_file, protocol,
    online, name): which protocols it accepts, which of them may be searched
    online, and the cache an offline database needs. */
module Db {
  import opened Errors
  import Codec
  import Schema
  import Cache

  /** The names db.py takes over from the cache module, and its own
      constants. */
  const NotFoundError: Error := NotFound
  const BlankPartfunc: Codec.Word := Schema.BlankPartfunc
  const Origins: seq<string> := Schema.Origins
  const Timeout: nat := 60
  const DbVersion: string := "1.00"

  const Protocols: seq<string> := ["slap", "cdms_post", "jpl_post", "catfile", "local"]

  /** Protocols that read local files and so can never be online. */
  const LocalProtocols: seq<string> := ["catfile", "local"]

  datatype Database = Database(url: string, protocol: string, cacheFile: string, online: bool, name: string)

  /** Db(...) with the cache check performed by the cache module's isDbFile
      on what the cache path holds. */
  function NewDb(url: string, cacheFile: string, protocol: string, online: bool, name: string,
                 cache: Cache.Disk): (r: Result<Database>)
    ensures r.Ok? <==>
              && protocol in Protocols
              && (online ==> protocol !in LocalProtocols)
              && (!online && protocol !in LocalProtocols ==> Cache.IsDbFile(cache))
    ensures protocol !in Protocols ==> r == Err(UnknownProtocol)
    ensures protocol in Protocols && online && protocol in LocalProtocols ==> r == Err(LocalCannotBeOnline)
    ensures protocol in Protocols && !online && r.Err? ==> r == Err(OfflineCacheUnavailable)
    ensures r.Ok? ==> r.value == Database(url, protocol, cacheFile, online, name)
    // an accepted offline remote database has a cache the cache module can open
    ensures r.Ok? && !online && protocol !in LocalProtocols ==> Cache.Open(cache).Ok?
  {
    if protocol !in Protocols then Err(UnknownProtocol)
    else if online && protocol in LocalProtocols then Err(LocalCannotBeOnline)
    else if !online && protocol !in LocalProtocols && !Cache.IsDbFile(cache) then Err(OfflineCacheUnavailable)
    else Ok(Database(url, protocol, cacheFile, online, name))
  }

  /** Db(...) as db.py is written: it calls isDbFile without importing it, so
      the offline branch for a remote protocol raises NameError whatever the
      cache holds. */
  function NewDbAsWritten(url: string, cacheFile: string, protocol: string, online: bool, name: string,
                          cache: Cache.Disk): (r: Result<Database>)
    ensures !online && protocol in Protocols && protocol !in LocalProtocols ==> r == Err(UndefinedName)
    ensures r.Ok? <==> protocol in Protocols && (if online then protocol !in LocalProtocols else protocol in LocalProtocols)
  {
    if protocol !in Protocols then Err(UnknownProtocol)
    else if online && protocol in LocalProtocols then Err(LocalCannotBeOnline)
    else if !online && protocol !in LocalProtocols then Err(UndefinedName)
    else Ok(Database(url, protocol, cacheFile, online, name))
  }

  /** Outside the offline remote case the two agree. */
  lemma AsWrittenAgreesElsewhere(url: string, cacheFile: string, protocol: string, online: bool, name: string,
                                 cache: Cache.Disk)
    requires online || protocol in LocalProtocols || protocol !in Protocols
    ensures NewDbAsWritten(url, cacheFile, protocol, online, name, cache) ==
            NewDb(url, cacheFile, protocol, online, name, cache)
  {
  }

  /** An offline SLAP database over a freshly created cache: accepted by the
      corrected constructor, refused with NameError as written. */
  lemma OfflineSlapRejectedAsWritten()
    ensures var cache := Cache.Create(Cache.Missing, DbVersion, false).value;
            && NewDbAsWritten("", "cache.db", "slap", false, "", cache) == Err(UndefinedName)
            && NewDb("", "cache.db", "slap", false, "", cache).Ok?
  {
    assert "slap" == Protocols[0];
    assert "slap" !in LocalProtocols;
  }
}
