/**
 The result cache of src/cache.rs: an in-memory map from the digest of a
 message to the pair of scores computed for it, written through to a single
 cache file on every insert. The SHA-256 function of FIPS 180-4 is a parameter
 `hash` of the cache, its upper-case hex rendering is modelled; the file at
 DEFAULT_CACHE_PATH is an object `Disk` whose content is either absent, a
 written map, or unreadable.
 */
module ResultCache {
  import opened Utils

  const DEFAULT_CACHE_PATH: string := "resources/cache.json"

  newtype byte = x: int | 0 <= x < 256

  /** The 32-byte output of SHA-256. */
  type Sha256Output = b: seq<byte> | |b| == 32 witness seq(32, _ => 0)

  predicate IsUpperHexDigit(c: char) {
    '0' <= c <= '9' || 'A' <= c <= 'F'
  }

  predicate IsUpperHex(s: string) {
    forall i :: 0 <= i < |s| ==> IsUpperHexDigit(s[i])
  }

  function HexDigit(n: nat): (c: char)
    requires n < 16
    ensures IsUpperHexDigit(c)
  {
    if n < 10 then ('0' as int + n) as char else ('A' as int + n - 10) as char
  }

  function HexValue(c: char): (n: nat)
    requires IsUpperHexDigit(c)
    ensures n < 16 && HexDigit(n) == c
  {
    if c <= '9' then c as int - '0' as int else c as int - 'A' as int + 10
  }

  /** `format!("{:X}", bytes)`: every byte as two upper-case hex digits, the
      high nibble first and zero-padded. */
  function UpperHex(bytes: seq<byte>): (s: string)
    ensures |s| == 2 * |bytes| && IsUpperHex(s)
  {
    if bytes == [] then []
    else
      var b := bytes[0] as int;
      [HexDigit(b / 16), HexDigit(b % 16)] + UpperHex(bytes[1..])
  }

  /** Reads back a string of upper-case hex digit pairs. */
  function FromUpperHex(s: string): seq<byte>
    requires |s| % 2 == 0 && IsUpperHex(s)
  {
    if s == [] then []
    else [(HexValue(s[0]) * 16 + HexValue(s[1])) as byte] + FromUpperHex(s[2..])
  }

  lemma {:induction false} UpperHexRoundTrip(bytes: seq<byte>)
    ensures FromUpperHex(UpperHex(bytes)) == bytes
    decreases |bytes|
  {
    if bytes != [] {
      var b := bytes[0] as int;
      var s := UpperHex(bytes);
      assert s[2..] == UpperHex(bytes[1..]);
      assert HexValue(HexDigit(b / 16)) == b / 16 && HexValue(HexDigit(b % 16)) == b % 16;
      UpperHexRoundTrip(bytes[1..]);
    }
  }

  /** The hex rendering loses nothing: two cache keys are equal exactly when
      the digests they render are. */
  lemma UpperHexInjective(a: seq<byte>, b: seq<byte>)
    ensures UpperHex(a) == UpperHex(b) <==> a == b
  {
    if UpperHex(a) == UpperHex(b) {
      UpperHexRoundTrip(a);
      UpperHexRoundTrip(b);
    }
  }

  /** An f64 score: a finite value, taken as an exact real, an infinity or NaN. */
  datatype F64 = Finite(value: real) | PosInf | NegInf | NaN

  /** (spam score, ham score). */
  type Scores = (F64, F64)

  /** serde_json writes a non-finite f64 as `null` and refuses to read `null`
      back as an f64, so only a pair of finite scores survives the file. */
  predicate Serializable(p: Scores) {
    p.0.Finite? && p.1.Finite?
  }

  /** A written map that `from_reader` reads back. */
  predicate ReadsBack(entries: map<string, Scores>) {
    forall k :: k in entries ==> Serializable(entries[k])
  }

  datatype CacheFile = Absent | Written(entries: map<string, Scores>) | Corrupt

  /** The file at `path` that holds the cache. */
  class Disk {
    const path: string
    var cacheFile: CacheFile

    constructor (cacheFile: CacheFile)
      ensures path == DEFAULT_CACHE_PATH && this.cacheFile == cacheFile
    {
      path := DEFAULT_CACHE_PATH;
      this.cacheFile := cacheFile;
    }
  }

  class Cache {
    var cache: map<string, Scores>
    const hash: string -> Sha256Output
    const disk: Disk

    constructor Load(hash: string -> Sha256Output, disk: Disk, entries: map<string, Scores>)
      ensures this.hash == hash && this.disk == disk && cache == entries
    {
      this.hash := hash;
      this.disk := disk;
      cache := entries;
    }

    /** `Cache::new`: the persisted map when the file exists, an empty one when
        it does not; a file that is unreadable or holds a non-finite score is
        an I/O error (the deserializer's error converted by `?`). */
    static method New(hash: string -> Sha256Output, disk: Disk) returns (r: Result<Cache, SpamClassifierError>)
      ensures r.Ok? <==> disk.cacheFile.Absent? || (disk.cacheFile.Written? && ReadsBack(disk.cacheFile.entries))
      ensures r.Err? ==> r.error == IO
      ensures r.Ok? ==> fresh(r.value) && r.value.hash == hash && r.value.disk == disk
      ensures r.Ok? ==> r.value.cache == (if disk.cacheFile.Written? then disk.cacheFile.entries else map[])
    {
      if disk.cacheFile.Corrupt? || (disk.cacheFile.Written? && !ReadsBack(disk.cacheFile.entries)) {
        return Err(IO);
      }
      var entries := if disk.cacheFile.Written? then disk.cacheFile.entries else map[];
      var c := new Cache.Load(hash, disk, entries);
      return Ok(c);
    }

    /** `hash_string`: the SHA-256 digest of the message in upper-case hex. */
    function HashString(message: string): (key: string)
      ensures |key| == 64 && IsUpperHex(key)
    {
      UpperHex(hash(message))
    }

    /** Equal messages hit the same entry, and two messages share an entry
        exactly when their SHA-256 digests are equal. */
    lemma SameKeyIffSameDigest(m1: string, m2: string)
      ensures m1 == m2 ==> HashString(m1) == HashString(m2)
      ensures HashString(m1) == HashString(m2) <==> hash(m1) == hash(m2)
    {
      UpperHexInjective(hash(m1), hash(m2));
    }

    /** `get_from_cache`: the scores stored under the message's digest. */
    function GetFromCache(message: string): (scores: Option<Scores>)
      reads this
      ensures scores.Some? <==> HashString(message) in cache
      ensures scores.Some? ==> scores.value == cache[HashString(message)]
    {
      var key := HashString(message);
      if key in cache then Some(cache[key]) else None
    }

    /** `add_to_cache`: insert (or overwrite) in memory first, then rewrite the
        whole file. `createFails` stands for `File::create` failing (the file is
        left as it was), `writeFails` for the serializer failing after the file
        was truncated. Either way the new entry stays in memory. */
    method AddToCache(message: string, probs: Scores, createFails: bool, writeFails: bool)
      returns (r: Result<(), SpamClassifierError>)
      modifies this, disk
      ensures cache == old(cache)[HashString(message) := probs]
      ensures GetFromCache(message) == Some(probs)
      ensures forall m :: HashString(m) != HashString(message) ==> GetFromCache(m) == old(GetFromCache(m))
      ensures createFails ==> r == Err(IO) && disk.cacheFile == old(disk.cacheFile)
      ensures !createFails && writeFails ==> r == Err(Serde) && disk.cacheFile == Corrupt
      ensures !createFails && !writeFails ==> r == Ok(()) && disk.cacheFile == Written(cache)
    {
      var key := HashString(message);
      cache := cache[key := probs];
      if createFails {
        return Err(IO);
      }
      if writeFails {
        disk.cacheFile := Corrupt;
        return Err(Serde);
      }
      disk.cacheFile := Written(cache);
      return Ok(());
    }

    /** The file mirrors the map: it holds exactly the map, or is absent
        while the map is empty, and every score in it reads back. */
    ghost predicate Mirrored()
      reads this, disk
    {
      && ReadsBack(cache)
      && (disk.cacheFile == Written(cache) || (disk.cacheFile.Absent? && cache == map[]))
    }

    /** `add_to_cache` as evidently intended: a non-finite pair is not cached,
        so the file always reads back; any other pair is added as
        `add_to_cache` adds it. */
    method AddToCacheChecked(message: string, probs: Scores, createFails: bool, writeFails: bool)
      returns (r: Result<(), SpamClassifierError>)
      modifies this, disk
      ensures !Serializable(probs) ==> r == Ok(()) && unchanged(this) && unchanged(disk)
      ensures Serializable(probs) ==> cache == old(cache)[HashString(message) := probs]
      ensures Serializable(probs) && createFails ==> r == Err(IO) && disk.cacheFile == old(disk.cacheFile)
      ensures Serializable(probs) && !createFails && writeFails ==> r == Err(Serde) && disk.cacheFile == Corrupt
      ensures Serializable(probs) && !createFails && !writeFails ==> r == Ok(()) && disk.cacheFile == Written(cache)
      ensures old(ReadsBack(cache)) ==> ReadsBack(cache)
      ensures old(Mirrored()) && !createFails && !writeFails ==> Mirrored()
    {
      if !Serializable(probs) {
        return Ok(());
      }
      r := AddToCache(message, probs, createFails, writeFails);
    }

    /** `clean_cache`: deletes the file if it exists; the in-memory map of this
        cache is left as it is. `removeFails` stands for `remove_file` failing. */
    method CleanCache(removeFails: bool) returns (r: Result<(), SpamClassifierError>)
      modifies disk
      ensures unchanged(this)
      ensures old(disk.cacheFile).Absent? ==> r == Ok(()) && disk.cacheFile == Absent
      ensures !old(disk.cacheFile).Absent? && removeFails ==> r == Err(IO) && unchanged(disk)
      ensures !old(disk.cacheFile).Absent? && !removeFails ==> r == Ok(()) && disk.cacheFile == Absent
    {
      if disk.cacheFile.Absent? {
        return Ok(());
      }
      if removeFails {
        return Err(IO);
      }
      disk.cacheFile := Absent;
      return Ok(());
    }
  }

  /** Write-through: after a successful insert of finite scores into a map of
      finite scores, a cache opened afresh from the file holds exactly the
      in-memory map and serves the inserted scores. */
  method ReopenAfterAdd(c: Cache, message: string, probs: Scores)
    returns (reopened: Result<Cache, SpamClassifierError>)
    requires Serializable(probs) && ReadsBack(c.cache)
    modifies c, c.disk
    ensures reopened.Ok? && reopened.value.cache == c.cache
    ensures reopened.value.GetFromCache(message) == Some(probs)
  {
    var r := c.AddToCache(message, probs, false, false);
    reopened := Cache.New(c.hash, c.disk);
  }

  /** Invalidation: after `clean_cache` succeeds, a cache opened afresh is
      empty, while the cleaned instance still answers from memory. */
  method ReopenAfterClean(c: Cache, message: string)
    returns (reopened: Result<Cache, SpamClassifierError>)
    modifies c.disk
    ensures c.GetFromCache(message) == old(c.GetFromCache(message))
    ensures reopened.Ok? && reopened.value.cache == map[]
    ensures reopened.value.GetFromCache(message) == None
  {
    var r := c.CleanCache(false);
    reopened := Cache.New(c.hash, c.disk);
  }

  /** As written, inserting a non-finite pair (such as the NaN pair an empty
      model scores) succeeds, and the next `Cache::new` then fails. */
  method ReopenAfterNonFiniteAdd(c: Cache, message: string, probs: Scores)
    returns (r: Result<(), SpamClassifierError>, reopened: Result<Cache, SpamClassifierError>)
    requires !Serializable(probs)
    modifies c, c.disk
    ensures r == Ok(())
    ensures reopened == Err(IO)
  {
    r := c.AddToCache(message, probs, false, false);
    assert c.cache[c.HashString(message)] == probs;
    reopened := Cache.New(c.hash, c.disk);
  }

  /** With the checked insert the file keeps mirroring the map, so a cache
      opened afresh after any successful insert, finite or not, holds the
      in-memory map. */
  method ReopenAfterCheckedAdd(c: Cache, message: string, probs: Scores)
    returns (reopened: Result<Cache, SpamClassifierError>)
    requires c.Mirrored()
    modifies c, c.disk
    ensures c.Mirrored()
    ensures reopened.Ok? && reopened.value.cache == c.cache
    ensures Serializable(probs) ==> reopened.value.GetFromCache(message) == Some(probs)
  {
    var r := c.AddToCacheChecked(message, probs, false, false);
    reopened := Cache.New(c.hash, c.disk);
  }
}
