/**
 * The artifact store: the capture directory, the names of captured files,
 * their verification, the age-based retention sweep and directory statistics.
 *
 * The filesystem is an object whose `entries` map a path to its size and
 * modification time (whole seconds). `locked` holds the paths whose removal
 * raises (permission denied, busy, vanished): it is how a failing `os.remove`
 * is fed in. The `*.jpg` glob of the capture directory is `Captures`.
 */
module Files {
  import opened Common
  import Strings

  const SecondsPerDay: int := 86400

  datatype FileInfo = FileInfo(size: nat, mtime: int)

  class FileSystem {
    var entries: map<string, FileInfo>
    const locked: set<string>

    constructor (entries: map<string, FileInfo>, locked: set<string>)
      ensures this.entries == entries && this.locked == locked
    {
      this.entries := entries;
      this.locked := locked;
    }
  }

  /** `os.path.join(dir, name)` for two components. */
  function Join(dir: string, name: string): string
  {
    if |name| > 0 && name[0] == '/' then name
    else if dir == [] || dir[|dir| - 1] == '/' then dir + name
    else dir + "/" + name
  }

  /** The index just after the last '/' in `path[..j]`, or 0 if there is none. */
  function AfterLastSlash(path: string, j: nat): (r: nat)
    requires j <= |path|
    ensures r <= j
    ensures forall k :: r <= k < j ==> path[k] != '/'
    ensures r > 0 ==> path[r - 1] == '/'
  {
    if j > 0 && path[j - 1] != '/' then AfterLastSlash(path, j - 1) else j
  }

  /** `os.path.basename(path)`: everything after the last '/'. */
  function Basename(path: string): (name: string)
    ensures '/' !in name
    ensures |name| <= |path| && forall k :: 0 <= k < |name| ==> name[k] == path[|path| - |name| + k]
    ensures |name| < |path| ==> path[|path| - |name| - 1] == '/'
  {
    var i := AfterLastSlash(path, |path|);
    assert forall c :: c in path[i..] ==> c != '/' by {
      forall c | c in path[i..] ensures c != '/' {
        var k :| 0 <= k < |path[i..]| && path[i..][k] == c;
        assert path[i + k] == c;
      }
    }
    path[i..]
  }

  lemma {:induction false} AfterLastSlashOfJoin(prefix: string, name: string, j: nat)
    requires prefix == [] || prefix[|prefix| - 1] == '/'
    requires '/' !in name
    requires |prefix| <= j <= |prefix| + |name|
    ensures AfterLastSlash(prefix + name, j) == |prefix|
    decreases j
  {
    var path := prefix + name;
    if j > |prefix| {
      assert path[j - 1] == name[j - 1 - |prefix|];
      AfterLastSlashOfJoin(prefix, name, j - 1);
    }
  }

  /** The base name of a joined path is the component that was joined on. */
  lemma BasenameOfJoin(dir: string, name: string)
    requires '/' !in name
    ensures Basename(Join(dir, name)) == name
  {
    var prefix := if dir == [] || dir[|dir| - 1] == '/' then dir else dir + "/";
    assert Join(dir, name) == prefix + name;
    AfterLastSlashOfJoin(prefix, name, |prefix| + |name|);
    assert (prefix + name)[|prefix|..] == name;
  }

  lemma {:induction false} AfterLastSlashOfAppend(a: string, b: string, j: nat)
    requires j <= |b| && AfterLastSlash(b, j) > 0
    ensures AfterLastSlash(a + b, |a| + j) == |a| + AfterLastSlash(b, j)
    decreases j
  {
    assert (a + b)[|a| + j - 1] == b[j - 1];
    if b[j - 1] != '/' {
      AfterLastSlashOfAppend(a, b, j - 1);
    }
  }

  /** A path whose tail holds a '/' has that tail's base name. */
  lemma BasenameOfAppend(a: string, b: string)
    requires '/' in b
    ensures Basename(a + b) == Basename(b)
  {
    var i := AfterLastSlash(b, |b|);
    if i == 0 {
      assert false;
    }
    AfterLastSlashOfAppend(a, b, |b|);
    assert (a + b)[|a| + i..] == b[i..];
  }

  /** Writing `size` bytes to `path` leaves a file that `verify_file_exists`
      accepts exactly when it is not empty; every other path keeps its verdict. */
  lemma VerifiedAfterWrite(entries: map<string, FileInfo>, path: string, size: nat, now: int, other: string)
    ensures Verified(entries[path := FileInfo(size, now)], path) <==> size > 0
    ensures other != path ==> (Verified(entries[path := FileInfo(size, now)], other) <==> Verified(entries, other))
  {
  }

  /** A path that `Path(dir).glob('*.jpg')` yields: a `.jpg` name directly inside `dir`. */
  predicate IsCapture(dir: string, path: string)
  {
    var name := Basename(path);
    Strings.EndsWith(name, ".jpg") && Join(dir, name) == path
  }

  /** `verify_file_exists`: the path exists and holds at least one byte. */
  predicate Verified(entries: map<string, FileInfo>, path: string)
  {
    path in entries && entries[path].size > 0
  }

  /** Sum of the sizes of the files in `paths`. */
  ghost function SizeSum(entries: map<string, FileInfo>, paths: set<string>): nat
    requires paths <= entries.Keys
    decreases paths
  {
    if paths == {} then 0
    else
      var p :| p in paths;
      entries[p].size + SizeSum(entries, paths - {p})
  }

  /** The sum does not depend on which file is taken out first. */
  lemma {:induction false} SizeSumRemove(entries: map<string, FileInfo>, paths: set<string>, p: string)
    requires paths <= entries.Keys && p in paths
    ensures SizeSum(entries, paths) == entries[p].size + SizeSum(entries, paths - {p})
    decreases paths
  {
    var q :| q in paths && SizeSum(entries, paths) == entries[q].size + SizeSum(entries, paths - {q});
    if q != p {
      SizeSumRemove(entries, paths - {q}, p);
      SizeSumRemove(entries, paths - {p}, q);
      assert paths - {q} - {p} == paths - {p} - {q};
    }
  }

  /** `t` is the earliest modification time among `paths`. */
  ghost predicate IsOldest(entries: map<string, FileInfo>, paths: set<string>, t: int)
    requires paths <= entries.Keys
  {
    (exists p :: p in paths && entries[p].mtime == t) && forall p :: p in paths ==> t <= entries[p].mtime
  }

  /** `t` is the latest modification time among `paths`. */
  ghost predicate IsNewest(entries: map<string, FileInfo>, paths: set<string>, t: int)
    requires paths <= entries.Keys
  {
    (exists p :: p in paths && entries[p].mtime == t) && forall p :: p in paths ==> entries[p].mtime <= t
  }

  /** What `get_capture_stats` reports; sizes are whole bytes (the source rounds to megabytes). */
  datatype CaptureStats = CaptureStats(count: nat, totalBytes: nat, oldest: Option<int>, newest: Option<int>)

  /** `stats` is the summary of the files `paths` of `entries`. */
  ghost predicate Summarises(stats: CaptureStats, entries: map<string, FileInfo>, paths: set<string>)
    requires paths <= entries.Keys
  {
    && stats.count == |paths|
    && stats.totalBytes == SizeSum(entries, paths)
    && (stats.oldest.None? <==> paths == {})
    && (stats.newest.None? <==> paths == {})
    && (stats.oldest.Some? ==> IsOldest(entries, paths, stats.oldest.value))
    && (stats.newest.Some? ==> IsNewest(entries, paths, stats.newest.value))
  }

  /** In a non-empty summary the oldest time is never after the newest. */
  lemma OldestNotAfterNewest(stats: CaptureStats, entries: map<string, FileInfo>, paths: set<string>)
    requires paths <= entries.Keys && Summarises(stats, entries, paths)
    ensures stats.oldest.Some? <==> stats.newest.Some?
    ensures stats.oldest.Some? ==> stats.oldest.value <= stats.newest.value
  {
    if stats.oldest.Some? {
      var p :| p in paths && entries[p].mtime == stats.oldest.value;
    }
  }

  /** The files among `paths` modified strictly before `cutoff`. */
  function OlderThan(entries: map<string, FileInfo>, paths: set<string>, cutoff: int): (older: set<string>)
    requires paths <= entries.Keys
    ensures older <= paths
  {
    set p | p in paths && entries[p].mtime < cutoff
  }

  lemma RemoveOneMore(start: map<string, FileInfo>, removed: set<string>, p: string)
    ensures (start - removed) - {p} == start - (removed + {p})
  {
  }

  lemma RemovedKeys(start: map<string, FileInfo>, removed: set<string>)
    requires removed <= start.Keys
    ensures start.Keys - (start - removed).Keys == removed
  {
  }

  /** Taking one more file into account moves the running minimum and maximum as expected. */
  lemma ExtremesAdd(entries: map<string, FileInfo>, done: set<string>, p: string, oldest: Option<int>, newest: Option<int>)
    requires done <= entries.Keys && p in entries && p !in done
    requires oldest.None? <==> done == {}
    requires newest.None? <==> done == {}
    requires oldest.Some? ==> IsOldest(entries, done, oldest.value)
    requires newest.Some? ==> IsNewest(entries, done, newest.value)
    ensures var t := entries[p].mtime;
            && IsOldest(entries, done + {p}, if oldest.None? || t < oldest.value then t else oldest.value)
            && IsNewest(entries, done + {p}, if newest.None? || t > newest.value then t else newest.value)
  {
    var t := entries[p].mtime;
    if oldest.Some? {
      var q :| q in done && entries[q].mtime == oldest.value;
      if t >= oldest.value { assert q in done + {p}; }
    }
    if newest.Some? {
      var q :| q in done && entries[q].mtime == newest.value;
      if t <= newest.value { assert q in done + {p}; }
    }
    assert p in done + {p};
  }

  lemma NoSlashInName(stamp: string, extension: string)
    requires '/' !in stamp && '/' !in extension
    ensures '/' !in stamp + "." + extension
  {
  }

  lemma JpgSuffix(stamp: string)
    ensures Strings.EndsWith(stamp + "." + "jpg", ".jpg")
  {
    var name := stamp + "." + "jpg";
    assert name[|name| - 4..] == ".jpg";
  }

  /** The state of the stats fold after visiting the paths in `done`. */
  ghost predicate FoldedSoFar(entries: map<string, FileInfo>, paths: set<string>, done: set<string>, pending: set<string>,
                              count: nat, total: nat, oldest: Option<int>, newest: Option<int>)
    requires paths <= entries.Keys
  {
    && done + pending == paths && done !! pending
    && count == |done|
    && total + SizeSum(entries, pending) == SizeSum(entries, paths)
    && (oldest.None? <==> done == {})
    && (newest.None? <==> done == {})
    && (oldest.Some? ==> IsOldest(entries, done, oldest.value))
    && (newest.Some? ==> IsNewest(entries, done, newest.value))
  }

  lemma FoldStep(entries: map<string, FileInfo>, paths: set<string>, done: set<string>, pending: set<string>,
                 count: nat, total: nat, oldest: Option<int>, newest: Option<int>, p: string)
    requires paths <= entries.Keys && p in pending
    requires FoldedSoFar(entries, paths, done, pending, count, total, oldest, newest)
    ensures var t := entries[p].mtime;
            FoldedSoFar(entries, paths, done + {p}, pending - {p}, count + 1, total + entries[p].size,
                        if oldest.None? || t < oldest.value then Some(t) else oldest,
                        if newest.None? || t > newest.value then Some(t) else newest)
  {
    var t := entries[p].mtime;
    assert (done + {p}) + (pending - {p}) == paths && (done + {p}) !! (pending - {p});
    assert |done + {p}| == count + 1;
    SizeSumRemove(entries, pending, p);
    ExtremesAdd(entries, done, p, oldest, newest);
  }

  lemma FoldDone(entries: map<string, FileInfo>, paths: set<string>, done: set<string>,
                 count: nat, total: nat, oldest: Option<int>, newest: Option<int>)
    requires paths <= entries.Keys
    requires FoldedSoFar(entries, paths, done, {}, count, total, oldest, newest)
    ensures Summarises(CaptureStats(count, total, oldest, newest), entries, paths)
  {
    assert done == paths;
  }

  /** The state of the retention sweep once the paths outside `pending` have been visited. */
  ghost predicate SweptSoFar(start: map<string, FileInfo>, paths: set<string>, cutoff: int, locked: set<string>,
                             pending: set<string>, removed: set<string>, entries: map<string, FileInfo>, deleted: nat)
    requires paths <= start.Keys
  {
    && pending <= paths
    && removed == OlderThan(start, paths, cutoff) - pending
    && removed !! locked
    && entries == start - removed
    && deleted == |removed|
  }

  /** Visiting `p`: it is still present, unchanged, and is removed exactly when it is old enough. */
  lemma SweepVisit(start: map<string, FileInfo>, paths: set<string>, cutoff: int, locked: set<string>,
                   pending: set<string>, removed: set<string>, entries: map<string, FileInfo>, deleted: nat, p: string)
    requires paths <= start.Keys && p in pending
    requires SweptSoFar(start, paths, cutoff, locked, pending, removed, entries, deleted)
    ensures p in entries && entries[p] == start[p]
    ensures entries[p].mtime < cutoff ==> p !in removed
    ensures entries[p].mtime < cutoff && p !in locked ==>
              SweptSoFar(start, paths, cutoff, locked, pending - {p}, removed + {p}, entries - {p}, deleted + 1)
    ensures entries[p].mtime >= cutoff ==> SweptSoFar(start, paths, cutoff, locked, pending - {p}, removed, entries, deleted)
  {
    var expired := OlderThan(start, paths, cutoff);
    if entries[p].mtime < cutoff {
      assert p in expired;
      assert removed + {p} == expired - (pending - {p});
      RemoveOneMore(start, removed, p);
    } else {
      assert p !in expired;
      assert removed == expired - (pending - {p});
    }
  }

  lemma SweepAborted(start: map<string, FileInfo>, paths: set<string>, cutoff: int, locked: set<string>,
                     pending: set<string>, removed: set<string>, entries: map<string, FileInfo>, deleted: nat, p: string)
    requires paths <= start.Keys && p in paths && p !in pending && p !in removed && p in locked
    requires p in entries && entries[p] == start[p] && entries[p].mtime < cutoff
    requires SweptSoFar(start, paths, cutoff, locked, pending + {p}, removed, entries, deleted)
    ensures var expired := OlderThan(start, paths, cutoff);
            var gone := start.Keys - entries.Keys;
            && entries == start - gone
            && gone <= expired
            && gone !! locked
            && deleted == |gone|
            && gone != expired
            && p in expired && p in locked && p in entries
  {
    RemovedKeys(start, removed);
    assert p in OlderThan(start, paths, cutoff);
  }

  lemma SweepFinished(start: map<string, FileInfo>, paths: set<string>, cutoff: int, locked: set<string>,
                      removed: set<string>, entries: map<string, FileInfo>, deleted: nat)
    requires paths <= start.Keys
    requires SweptSoFar(start, paths, cutoff, locked, {}, removed, entries, deleted)
    ensures var gone := start.Keys - entries.Keys;
            && entries == start - gone
            && gone == OlderThan(start, paths, cutoff)
            && gone !! locked
            && deleted == |gone|
  {
    RemovedKeys(start, removed);
  }

  class FileManager {
    const captureDir: string
    const maxAgeDays: int
    const fs: FileSystem

    constructor (captureDir: string, maxAgeDays: int, fs: FileSystem)
      ensures this.captureDir == captureDir && this.maxAgeDays == maxAgeDays && this.fs == fs
    {
      this.captureDir := captureDir;
      this.maxAgeDays := maxAgeDays;
      this.fs := fs;
    }

    /**
     * `generate_filename`: the capture directory joined with the formatted
     * timestamp and the extension. `stamp` is what `strftime` produced.
     */
    function GenerateFilename(stamp: string, extension: string := "jpg"): string
    {
      Join(captureDir, stamp + "." + extension)
    }

    /** `_get_filename`. */
    function GetFilename(path: string): string
    {
      Basename(path)
    }

    /**
     * The final component of a generated path is the generated name, and a
     * generated `.jpg` path is one the directory glob picks up.
     */
    lemma GeneratedFilename(stamp: string, extension: string)
      requires '/' !in stamp && '/' !in extension
      ensures GetFilename(GenerateFilename(stamp, extension)) == stamp + "." + extension
      ensures extension == "jpg" ==> IsCapture(captureDir, GenerateFilename(stamp, extension))
    {
      var name := stamp + "." + extension;
      NoSlashInName(stamp, extension);
      BasenameOfJoin(captureDir, name);
      if extension == "jpg" {
        JpgSuffix(stamp);
      }
    }

    /**
     * A stamp holding a '/' (a `filename_pattern` with `%D`, or a literal
     * slash) does not survive: `_get_filename` of the generated path is only
     * what follows the last '/', not the generated name.
     */
    lemma GeneratedFilenameSlashed(stamp: string, extension: string)
      requires '/' in stamp
      ensures GetFilename(GenerateFilename(stamp, extension)) == Basename(stamp + "." + extension)
      ensures GetFilename(GenerateFilename(stamp, extension)) != stamp + "." + extension
    {
      var name := stamp + "." + extension;
      var k :| 0 <= k < |stamp| && stamp[k] == '/';
      assert name[k] == '/';
      if !(|name| > 0 && name[0] == '/') {
        var prefix := if captureDir == [] || captureDir[|captureDir| - 1] == '/' then captureDir else captureDir + "/";
        assert Join(captureDir, name) == prefix + name;
        BasenameOfAppend(prefix, name);
      }
    }

    /** `verify_file_exists`. */
    predicate VerifyFileExists(path: string)
      reads fs
    {
      Verified(fs.entries, path)
    }

    /** The `*.jpg` files directly inside the capture directory. */
    function Captures(entries: map<string, FileInfo>): (paths: set<string>)
      ensures paths <= entries.Keys
    {
      set p | p in entries && IsCapture(captureDir, p)
    }

    /** The captures whose modification time is strictly before `now - maxAgeDays` days. */
    function Expired(entries: map<string, FileInfo>, now: int): set<string>
    {
      OlderThan(entries, Captures(entries), now - maxAgeDays * SecondsPerDay)
    }

    /**
     * What a sweep at `now` leaves of the files `before`, having counted
     * `deleted`: with a non-positive maximum age nothing; otherwise only
     * expired captures that are not locked go, and the count is how many went.
     * With no locked expired capture every expired capture goes; when the
     * sweep stops short, a locked expired capture is still there.
     */
    ghost predicate Swept(before: map<string, FileInfo>, after: map<string, FileInfo>, now: int, deleted: nat)
    {
      if maxAgeDays <= 0 then deleted == 0 && after == before
      else
        var expired := Expired(before, now);
        var removed := before.Keys - after.Keys;
        && after == before - removed
        && removed <= expired
        && removed !! fs.locked
        && deleted == |removed|
        && (expired !! fs.locked ==> removed == expired)
        && (removed != expired ==> exists p :: p in expired && p in fs.locked && p in after)
    }

    /**
     * `cleanup_old_captures`. The sweep visits the captures in an unspecified
     * order and removes each expired one; one `try` wraps the whole loop, so the
     * first removal that raises ends the sweep and the count so far is returned.
     */
    method CleanupOldCaptures(now: int) returns (deleted: nat)
      modifies fs
      ensures Swept(old(fs.entries), fs.entries, now, deleted)
    {
      if maxAgeDays <= 0 {
        return 0;
      }
      var cutoff := now - maxAgeDays * SecondsPerDay;
      deleted := RemoveOlderThan(Captures(fs.entries), cutoff);
    }

    /**
     * The loop of the sweep over the globbed paths `pending`: removes every path
     * older than `cutoff` until a removal raises.
     */
    method RemoveOlderThan(paths: set<string>, cutoff: int) returns (deleted: nat)
      requires paths <= fs.entries.Keys
      modifies fs
      ensures var expired := OlderThan(old(fs.entries), paths, cutoff);
              var removed := old(fs.entries).Keys - fs.entries.Keys;
              && fs.entries == old(fs.entries) - removed
              && removed <= expired
              && removed !! fs.locked
              && deleted == |removed|
              && (expired !! fs.locked ==> removed == expired)
              && (removed != expired ==> exists p :: p in expired && p in fs.locked && p in fs.entries)
    {
      ghost var start := fs.entries;
      var pending := paths;
      ghost var removed: set<string> := {};
      deleted := 0;
      while pending != {}
        invariant SweptSoFar(start, paths, cutoff, fs.locked, pending, removed, fs.entries, deleted)
        decreases |pending|
      {
        var p :| p in pending;
        SweepVisit(start, paths, cutoff, fs.locked, pending, removed, fs.entries, deleted, p);
        pending := pending - {p};
        if fs.entries[p].mtime < cutoff {
          if p in fs.locked {
            // os.remove raised: the handler is outside the loop
            SweepAborted(start, paths, cutoff, fs.locked, pending, removed, fs.entries, deleted, p);
            return;
          }
          fs.entries := fs.entries - {p};
          removed := removed + {p};
          deleted := deleted + 1;
        }
      }
      SweepFinished(start, paths, cutoff, fs.locked, removed, fs.entries, deleted);
    }

    /** `get_capture_stats`: count, total bytes and the oldest and newest modification time. */
    method GetCaptureStats() returns (stats: CaptureStats)
      ensures Summarises(stats, fs.entries, Captures(fs.entries))
    {
      stats := Summarise(Captures(fs.entries));
    }

    /** The fold of `get_capture_stats` over the globbed paths. */
    method Summarise(paths: set<string>) returns (stats: CaptureStats)
      requires paths <= fs.entries.Keys
      ensures Summarises(stats, fs.entries, paths)
    {
      var pending := paths;
      ghost var done: set<string> := {};
      var count: nat, total: nat := 0, 0;
      var oldest: Option<int> := None;
      var newest: Option<int> := None;
      while pending != {}
        invariant FoldedSoFar(fs.entries, paths, done, pending, count, total, oldest, newest)
        decreases |pending|
      {
        var p :| p in pending;
        var info := fs.entries[p];
        FoldStep(fs.entries, paths, done, pending, count, total, oldest, newest, p);
        count := count + 1;
        total := total + info.size;
        if oldest.None? || info.mtime < oldest.value {
          oldest := Some(info.mtime);
        }
        if newest.None? || info.mtime > newest.value {
          newest := Some(info.mtime);
        }
        done := done + {p};
        pending := pending - {p};
      }
      FoldDone(fs.entries, paths, done, count, total, oldest, newest);
      stats := CaptureStats(count, total, oldest, newest);
    }

    /** `delete_capture`: removes an existing path; a missing path or a failing removal gives false. */
    method DeleteCapture(path: string) returns (ok: bool)
      modifies fs
      ensures ok <==> path in old(fs.entries) && path !in fs.locked
      ensures fs.entries == if ok then old(fs.entries) - {path} else old(fs.entries)
    {
      if path in fs.entries {
        if path in fs.locked {
          return false;
        }
        fs.entries := fs.entries - {path};
        return true;
      }
      return false;
    }
  }
}
