/** What a checkpoint writes and what it leaves behind: no more than the tombstones since
    the last one for a part already on disk, and no file of a part that is gone
    (src/storage.rs:585-633, src/persist.rs:171-199). */
module Housekeeping {
  import opened Values
  import opened Wrappers
  import opened Mvcc
  import opened Compaction
  import opened Protocol
  import opened Storage
  import opened Recovery
  import opened Checkpointing

  // ---- what phase one writes -----------------------------------------------

  /** Exactly the tombstones of a part stamped after `since`. */
  ghost predicate Newer(es: seq<(nat, Csn)>, p: Part, since: Csn) {
    forall o: nat, c: Csn :: (o, c) in es <==> o < |p.rows| && o in p.dv && p.dv[o] == c && since < c
  }

  /** A part on disk costs nothing if it has no tombstone since the last checkpoint, and
      otherwise one append of exactly those and a sync. */
  lemma {:induction false} KnownPartWork(st: ManifestState, t: nat, p: Part)
    requires t < |st.metas| && p.id in st.metas[t].partIds
    ensures var (ios, path) := (PartIos(PersistedOf(st), t, p), PartFile(t, p.id));
      && (ios == [] <==> forall o: nat :: o < |p.rows| && o in p.dv ==> p.dv[o] <= st.checkpoint)
      && (ios != [] ==> exists es :: Newer(es, p, st.checkpoint) && ios == [Append(path, [Tombs(es)]), Sync(path)])
  {
    assert (t, p.id) in KeysOf(st.metas);
    var es := EntriesAfter(p, st.checkpoint, |p.rows|);
    assert Newer(es, p, st.checkpoint);
    if es != [] { assert es[0].0 in p.dv; }
    assert PartIos(PersistedOf(st), t, p) == if es == [] then [] else [Append(PartFile(t, p.id), [Tombs(es)]), Sync(PartFile(t, p.id))];
  }

  // ---- what is removed -----------------------------------------------------

  /** Nothing from position `i` on touches the file but to remove it. */
  ghost predicate OnlyRemoved(ios: seq<Io>, i: nat, path: Path) {
    forall j :: i <= j < |ios| ==> ios[j].path != path || ios[j] == Remove(path)
  }

  lemma {:induction false} StaysGone(d: Disk, ios: seq<Io>, i: nat, path: Path)
    requires i < |ios| && ios[i] == Remove(path) && OnlyRemoved(ios, i, path)
    ensures path !in Exec(d, ios)
  {
    var n := |ios| - 1;
    if i < n {
      assert ios[..n][i] == ios[i];
      StaysGone(d, ios[..n], i, path);
      assert ios[n].path != path || ios[n] == Remove(path);
    }
  }

  lemma {:induction false} DeadAreRemoves(was: ManifestState, now: ManifestState, t: nat, ids: seq<nat>)
    requires t < |now.metas|
    ensures forall io :: io in DeadIos(was, now, t, ids) <==>
      exists i :: 0 <= i < |ids| && ids[i] !in now.metas[t].partIds && io == Remove(PartFile(t, ids[i]))
  {
    if ids != [] {
      var n := |ids| - 1;
      DeadAreRemoves(was, now, t, ids[..n]);
      forall io ensures io in DeadIos(was, now, t, ids) <==>
        exists i :: 0 <= i < |ids| && ids[i] !in now.metas[t].partIds && io == Remove(PartFile(t, ids[i]))
      {
        if io in DeadIos(was, now, t, ids[..n]) {
          var i :| 0 <= i < n && ids[..n][i] !in now.metas[t].partIds && io == Remove(PartFile(t, ids[..n][i]));
          assert ids[i] !in now.metas[t].partIds;
        }
        if i :| 0 <= i < |ids| && ids[i] !in now.metas[t].partIds && io == Remove(PartFile(t, ids[i])) {
          if i < n { assert ids[..n][i] == ids[i]; }
        }
      }
    }
  }

  ghost predicate Dropped(was: ManifestState, now: ManifestState, t: nat, id: nat) {
    t < |was.metas| && t < |now.metas| && id in was.metas[t].partIds && id !in now.metas[t].partIds
  }

  lemma {:induction false} AllDeadAre(was: ManifestState, now: ManifestState, n: nat)
    requires n <= |was.metas| && n <= |now.metas|
    ensures forall io :: io in AllDeadIos(was, now, n) <==> exists t, id: nat :: 0 <= t < n && Dropped(was, now, t, id) && io == Remove(PartFile(t, id))
  {
    if n > 0 {
      AllDeadAre(was, now, n - 1);
      var ids := was.metas[n-1].partIds;
      DeadAreRemoves(was, now, n - 1, ids);
      forall io ensures io in AllDeadIos(was, now, n) <==> exists t, id: nat :: 0 <= t < n && Dropped(was, now, t, id) && io == Remove(PartFile(t, id)) {
        if io in DeadIos(was, now, n - 1, ids) {
          var i :| 0 <= i < |ids| && ids[i] !in now.metas[n-1].partIds && io == Remove(PartFile(n - 1, ids[i]));
          assert Dropped(was, now, n - 1, ids[i]);
        }
        if t, id: nat :| 0 <= t < n && Dropped(was, now, t, id) && io == Remove(PartFile(t, id)) {
          if t == n - 1 {
            var i :| 0 <= i < |ids| && ids[i] == id;
            assert io == Remove(PartFile(n - 1, ids[i]));
          }
        }
      }
    }
  }

  /** Once removed and touched no more but by removals, the file stays gone. */
  lemma {:induction false} RemovedFor(d: Disk, before: seq<Io>, dead: seq<Io>, after: seq<Io>, path: Path)
    requires Remove(path) in dead && (forall io :: io in dead ==> io.Remove?) && forall io :: io in after ==> io.path != path
    ensures path !in Exec(d, before + dead + after)
  {
    hide Exec;
    var k :| 0 <= k < |dead| && dead[k] == Remove(path);
    var ios := before + dead + after;
    var i := |before| + k;
    assert ios[i] == dead[k];
    forall j | i <= j < |ios| ensures ios[j].path != path || ios[j] == Remove(path) {
      if j < |before| + |dead| {
        assert ios[j] == dead[j - |before|] && ios[j] in dead;
      } else {
        assert ios[j] == after[j - |before| - |dead|] && ios[j] in after;
      }
    }
    StaysGone(d, ios, i, path);
  }

  lemma {:induction false} ResetOnLog(mem: Mem)
    ensures forall io :: io in LogResetIos(mem) ==> io.path == WalFile
  {
  }

  lemma {:induction false} CheckpointIos(mem: Mem)
    requires |mem.st.metas| == |mem.tabs|
    ensures DoCheckpoint(mem).ios ==
      (BeforeSwitch(mem) + SwitchIos(NewCatalog(mem))) + AllDeadIos(mem.st, NewCatalog(mem), |mem.tabs|) + LogResetIos(mem)
  {
    ScriptOf(mem);
    hide DoCheckpoint;
    hide BeforeSwitch;
    hide SwitchIos;
    hide AllDeadIos;
    hide LogResetIos;
    var (a, b, c, e) := (BeforeSwitch(mem), SwitchIos(NewCatalog(mem)), AllDeadIos(mem.st, NewCatalog(mem), |mem.tabs|), LogResetIos(mem));
    assert a + b + (c + e) == a + b + c + e;
  }

  /** A completed checkpoint leaves no file of a part the catalog named before and names
      no longer. */
  lemma {:induction false} DeadFilesGone(mem: Mem, d: Disk, t: nat, id: nat)
    requires |mem.st.metas| == |mem.tabs| && Dropped(mem.st, NewCatalog(mem), t, id)
    ensures PartFile(t, id) !in Exec(d, DoCheckpoint(mem).ios)
  {
    hide Exec;
    hide DoCheckpoint;
    hide AllDeadIos;
    hide BeforeSwitch;
    hide SwitchIos;
    hide LogResetIos;
    var (path, dead) := (PartFile(t, id), AllDeadIos(mem.st, NewCatalog(mem), |mem.tabs|));
    SameTables(mem);
    AllDeadAre(mem.st, NewCatalog(mem), |mem.tabs|);
    assert Remove(path) in dead;
    ResetOnLog(mem);
    CheckpointIos(mem);
    RemovedFor(d, BeforeSwitch(mem) + SwitchIos(NewCatalog(mem)), dead, LogResetIos(mem), path);
  }

  lemma {:induction false} SameTables(mem: Mem)
    ensures |NewCatalog(mem).metas| == |mem.tabs|
  {
  }

  /** And it removes no other file: every removal is of such a part. */
  lemma {:induction false} OnlyDeadRemoved(mem: Mem, io: Io)
    requires |mem.st.metas| == |mem.tabs| && io in AllDeadIos(mem.st, NewCatalog(mem), |mem.tabs|)
    ensures exists t: nat, id: nat :: Dropped(mem.st, NewCatalog(mem), t, id) && io == Remove(PartFile(t, id))
  {
    AllDeadAre(mem.st, NewCatalog(mem), |mem.tabs|);
  }
}
