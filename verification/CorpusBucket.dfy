/** `upload_dataset`, `publish_manifest` and `carry_forward` of
    benchmark/scripts/corpus_bucket.py, and the run of benchmark/scripts/bench_suite.py
    that uploads and publishes. One writer, faithful copies, no force flag. Each method
    also returns its writes, in order. */
module CorpusBucket {
  import opened Options
  import opened CorpusModel

  /** The objects of all artefacts of an entry in one record. */
  ghost predicate IsFlat(artefacts: map<string, Record>, all: Record) {
    && (forall a, key | a in artefacts && key in artefacts[a] :: key in all)
    && (forall key | key in all :: exists a | a in artefacts :: key in artefacts[a] && artefacts[a][key] == all[key])
  }

  method Flatten(artefacts: map<string, Record>) returns (all: Record)
    ensures IsFlat(artefacts, all)
  {
    all := map[];
    var rest := artefacts;
    while rest != map[]
      invariant forall a | a in rest :: a in artefacts && rest[a] == artefacts[a]
      invariant forall a, key | a in artefacts && key in artefacts[a] :: a in rest || key in all
      invariant forall key | key in all :: exists a | a in artefacts ::
        key in artefacts[a] && artefacts[a][key] == all[key]
      decreases rest.Keys
    {
      var a :| a in rest;
      var next := all + rest[a];
      forall key | key in next
        ensures exists b | b in artefacts :: key in artefacts[b] && artefacts[b][key] == next[key]
      {
        if key in rest[a] {
          assert key in artefacts[a] && artefacts[a][key] == next[key];
        }
      }
      all := next;
      rest := rest - {a};
    }
  }

  /** The local files, by the key they are uploaded under, are what the entry describes. */
  ghost predicate Describes(entry: Entry, prepared: map<string, Content>, sha: Hash) {
    forall a, key | a in entry.artefacts && key in entry.artefacts[a] ::
      key in prepared && entry.artefacts[a][key] == InfoOf(prepared[key], sha)
  }

  /** No key of the entry is in the bucket with another size or hash. */
  ghost predicate NoneDiffers(b: Bucket, chain: nat, entry: Entry, sha: Hash) {
    forall a, key | a in entry.artefacts && key in entry.artefacts[a] && (chain, key) in b.objects ::
      Matches(b, chain, key, entry.artefacts[a][key], sha)
  }

  ghost predicate Listed(entry: Entry, key: string) {
    exists a | a in entry.artefacts :: key in entry.artefacts[a]
  }

  /** What is known of a manifest's datasets before a step: they are stored. */
  ghost predicate Trusted(b: Bucket, chain: nat, existing: Option<Manifest>, sha: Hash) {
    existing.Some? ==> AllStored(b, chain, existing.value.datasets, sha)
  }

  class Corpus {
    const sha: Hash
    var objects: map<(nat, string), Content>
    var manifests: map<nat, Manifest>

    ghost function View(): Bucket
      reads this
    {
      Bucket(objects, manifests)
    }

    constructor (sha: Hash, objects: map<(nat, string), Content>, manifests: map<nat, Manifest>)
      ensures this.sha == sha && View() == Bucket(objects, manifests)
    {
      this.sha, this.objects, this.manifests := sha, objects, manifests;
    }

    /** Whether a key that is there already has the recorded content. The recorded hash of an
        object of the recorded size is trusted; without one the object is read and hashed.
        The trust is justified: the answer is what reading every object would give. */
    method IsSame(chain: nat, key: string, info: Info, recorded: Record) returns (same: bool)
      requires (chain, key) in objects
      requires key in recorded ==> Matches(View(), chain, key, recorded[key], sha)
      ensures same <==> Matches(View(), chain, key, info, sha)
    {
      var size := |objects[(chain, key)]|;
      var known := if key in recorded && recorded[key].bytes == size then Some(recorded[key].sha256) else None;
      var digest := if known.Some? then known.value else sha(objects[(chain, key)]);
      same := size == info.bytes && digest == info.sha256;
    }

    /** The plan of `upload_dataset` and `carry_forward`: which keys to send, and which differ. */
    method PlanKeys(chain: nat, wanted: Record, recorded: Record)
      returns (send: seq<string>, skip: seq<string>, differing: seq<string>)
      requires RecordStored(View(), chain, recorded, sha)
      ensures forall key :: key in send <==> key in wanted && (chain, key) !in objects
      ensures forall key :: key in skip <==> key in wanted && Matches(View(), chain, key, wanted[key], sha)
      ensures forall key :: key in differing <==>
        key in wanted && (chain, key) in objects && !Matches(View(), chain, key, wanted[key], sha)
    {
      send, skip, differing := [], [], [];
      var rest := wanted.Keys;
      while rest != {}
        invariant rest <= wanted.Keys
        invariant forall key :: key in send <==> key in wanted && key !in rest && (chain, key) !in objects
        invariant forall key :: key in skip <==>
          key in wanted && key !in rest && Matches(View(), chain, key, wanted[key], sha)
        invariant forall key :: key in differing <==>
          key in wanted && key !in rest && (chain, key) in objects && !Matches(View(), chain, key, wanted[key], sha)
        decreases rest
      {
        var key :| key in rest;
        if (chain, key) in objects {
          if key in recorded {
            assert RecordStored(View(), chain, recorded, sha);
          }
          var same := IsSame(chain, key, wanted[key], recorded);
          if same {
            skip := skip + [key];
          } else {
            differing := differing + [key];
          }
        } else {
          send := send + [key];
        }
        rest := rest - {key};
      }
    }

    /** The record of what a manifest says of one dataset, all artefacts together. */
    method Recorded(chain: nat, existing: Option<Manifest>, id: string) returns (recorded: Record)
      requires Trusted(View(), chain, existing, sha)
      ensures RecordStored(View(), chain, recorded, sha)
      ensures if existing.Some? && id in existing.value.datasets
        then IsFlat(existing.value.datasets[id].artefacts, recorded) else recorded == map[]
    {
      recorded := map[];
      if existing.Some? && id in existing.value.datasets {
        var entry := existing.value.datasets[id];
        recorded := Flatten(entry.artefacts);
        assert Stored(View(), chain, entry, sha);
        forall key | key in recorded ensures Matches(View(), chain, key, recorded[key], sha) {
          var a :| a in entry.artefacts && key in entry.artefacts[a] && entry.artefacts[a][key] == recorded[key];
          assert RecordStored(View(), chain, entry.artefacts[a], sha);
        }
      }
    }

    /** The loop that sends the planned keys. */
    method SendAll(chain: nat, prepared: map<string, Content>, send: seq<string>) returns (ghost ws: seq<Write>)
      requires forall key | key in send :: key in prepared && (chain, key) !in objects
      modifies this
      ensures SafeRun(old(View()), ws, sha) && View() == Run(old(View()), ws) && |ws| == |send|
      ensures manifests == old(manifests) && forall w | w in ws :: w.Put?
      ensures forall key | key in send :: (chain, key) in objects && objects[(chain, key)] == prepared[key]
      ensures forall o | o in objects && o !in old(objects) :: o.0 == chain && o.1 in send
    {
      hide SafeRun, Run;
      ws := [];
      ghost var before := View();
      NoWrites(before, sha);
      var i := 0;
      while i < |send|
        invariant 0 <= i <= |send| && |ws| == i
        invariant SafeRun(before, ws, sha) && View() == Run(before, ws) && manifests == before.manifests
        invariant forall w | w in ws :: w.Put?
        invariant forall o | o in objects && o !in before.objects ::
          o.1 in send && o.0 == chain && objects[o] == prepared[o.1]
        invariant forall k | 0 <= k < i :: (chain, send[k]) in objects && objects[(chain, send[k])] == prepared[send[k]]
      {
        var key := send[i];
        assert key in send;
        ghost var w := Put(chain, key, prepared[key]);
        RunAppend(before, ws, w, sha);
        objects := objects[(chain, key) := prepared[key]];
        ws := ws + [w];
        i := i + 1;
      }
    }

    /** `upload_dataset` without the force flag. It fails, before anything is sent, exactly
        when a key exists with different content. Otherwise it sends the keys that are
        missing and nothing else, and everything the entry lists is stored. */
    method UploadDataset(chain: nat, prepared: map<string, Content>, entry: Entry, id: string,
        existing: Option<Manifest>)
      returns (r: Result<(seq<string>, seq<string>), ()>, ghost ws: seq<Write>)
      requires Describes(entry, prepared, sha) && Trusted(View(), chain, existing, sha)
      modifies this
      ensures SafeRun(old(View()), ws, sha) && View() == Run(old(View()), ws)
      ensures manifests == old(manifests) && forall w | w in ws :: w.Put?
      ensures r.Ok? <==> NoneDiffers(old(View()), chain, entry, sha)
      ensures r.Err? ==> ws == []
      ensures r.Ok? ==>
        && Stored(View(), chain, entry, sha)
        && |ws| == |r.value.0|
        && (forall key :: key in r.value.0 <==> Listed(entry, key) && (chain, key) !in old(objects))
        && (forall key :: key in r.value.1 <==> Listed(entry, key) && (chain, key) in old(objects))
      ensures forall o | o in objects && o !in old(objects) :: o.0 == chain && Listed(entry, o.1)
    {
      hide SafeRun, Run, Stored;
      NoWrites(View(), sha);
      ghost var before := View();
      var recorded := Recorded(chain, existing, id);
      var wanted := Flatten(entry.artefacts);
      WantedIs(entry, prepared, sha, wanted);
      var send, skip, differing := PlanKeys(chain, wanted, recorded);
      if differing != [] {
        assert differing[0] in differing;
        DifferingShows(before, chain, entry, sha, wanted, differing[0]);
        return Err(()), [];
      }
      NothingDiffers(before, chain, entry, sha, wanted);
      ws := SendAll(chain, prepared, send);
      RunKeeps(before, ws, sha);
      UploadedIsStored(before, View(), chain, entry, prepared, sha, wanted, send);
      r := Ok((send, skip));
    }

    /** `publish_manifest`: merges stored entries into the chain's manifest and writes it. */
    method PublishManifest(chain: nat, entries: map<string, Entry>)
      returns (r: Result<Manifest, ()>, ghost ws: seq<Write>)
      requires Consistent(View(), sha) && AllStored(View(), chain, entries, sha)
      modifies this
      ensures SafeRun(old(View()), ws, sha) && View() == Run(old(View()), ws) && objects == old(objects)
      ensures r.Err? <==> chain in old(manifests) && old(manifests)[chain].chain != chain
      ensures r.Err? ==> ws == []
      ensures r.Ok? ==> |ws| == 1 && ws[0].WriteManifest?
      ensures r.Ok? ==>
        && manifests == old(manifests)[chain := r.value]
        && r.value == Manifest(chain,
             (if chain in old(manifests) then old(manifests)[chain].datasets else map[]) + entries)
    {
      ws := [];
      var datasets: map<string, Entry> := map[];
      if chain in manifests {
        if manifests[chain].chain != chain {
          return Err(()), [];
        }
        datasets := manifests[chain].datasets;
      }
      var m := Manifest(chain, datasets + entries);
      ghost var w := WriteManifest(chain, m);
      assert Safe(View(), w, sha);
      RunOne(View(), w, sha);
      ws := [w];
      manifests := manifests[chain := m];
      r := Ok(m);
    }

    /** The copy loop of `carry_forward`. */
    method CopyAll(from: nat, to: nat, send: seq<string>) returns (ghost ws: seq<Write>)
      requires forall key | key in send :: (from, key) in objects && (to, key) !in objects
      modifies this
      ensures SafeRun(old(View()), ws, sha) && View() == Run(old(View()), ws) && |ws| == |send|
      ensures manifests == old(manifests) && forall w | w in ws :: w.CopyObject?
      ensures forall key | key in send :: (to, key) in objects && objects[(to, key)] == old(objects)[(from, key)]
    {
      hide SafeRun, Run;
      ws := [];
      ghost var before := View();
      NoWrites(before, sha);
      var i := 0;
      while i < |send|
        invariant 0 <= i <= |send| && |ws| == i
        invariant SafeRun(before, ws, sha) && View() == Run(before, ws) && manifests == before.manifests
        invariant forall w | w in ws :: w.CopyObject?
        invariant forall o | o in before.objects :: o in objects && objects[o] == before.objects[o]
        invariant forall o | o in objects && o !in before.objects ::
          o.0 == to && (from, o.1) in before.objects && objects[o] == before.objects[(from, o.1)]
        invariant forall k | 0 <= k < i ::
          (to, send[k]) in objects && objects[(to, send[k])] == before.objects[(from, send[k])]
      {
        var key := send[i];
        assert key in send;
        ghost var w := CopyObject(from, to, key);
        RunAppend(before, ws, w, sha);
        objects := objects[(to, key) := objects[(from, key)]];
        ws := ws + [w];
        i := i + 1;
      }
    }

    /** The plan of `carry_forward` for one dataset: its new entry and the keys of what is carried. */
    method PlanDataset(from: nat, to: nat, id: string, artefacts: seq<string>)
      returns (r: Result<(Entry, seq<string>, seq<string>, seq<string>), ()>)
      requires Consistent(View(), sha) && from in manifests
      ensures r.Ok? <==> CanCarry(manifests[from], id, artefacts)
      ensures r.Ok? ==>
        var (entry, send, skip, differing) := r.value;
        && entry == EntryFor(manifests, from, to, id, artefacts)
        && (forall key | key in send :: (from, key) in objects)
        && (forall key :: key in send <==> Carries(manifests[from], id, artefacts, key) && (to, key) !in objects)
        && (differing == [] ==> forall key :: key in skip <==>
          Carries(manifests[from], id, artefacts, key) && (to, key) in objects)
        && (differing == [] <==> NoCarryDiffers(View(), from, to, id, artefacts, sha))
        && (differing == [] ==> CarryPlanned(View(), from, to, id, artefacts, send, sha))
    {
      hide Stored, RecordStored, NoCarryDiffers, CarryPlanned, Carries;
      var source := manifests[from];
      if !CanCarry(source, id, artefacts) {
        return Err(());
      }
      var hosted := source.datasets[id];
      var carried := CarriedArtefacts(hosted, artefacts);
      var entry := CarriedEntry(manifests, from, to, id, carried);
      var recorded := Recorded(to, if to in manifests then Some(manifests[to]) else None, id);
      var wanted := Flatten(carried);
      CarriedMatch(View(), from, hosted, artefacts, wanted, sha);
      var send, skip, differing := PlanKeys(to, wanted, recorded);
      CarriedDiffer(View(), from, to, id, artefacts, wanted, differing, sha);
      CarriedKeys(source, id, artefacts, wanted);
      if differing == [] {
        NoneOf(differing);
        CarriedIsPlanned(View(), from, to, id, artefacts, wanted, send, sha);
      }
      r := Ok((entry, send, skip, differing));
    }

    /** The planning loop of `carry_forward`. */
    method PlanAll(from: nat, to: nat, ids: seq<string>, artefacts: seq<string>)
      returns (r: Result<(map<string, Entry>, seq<string>, seq<string>), ()>)
      requires Consistent(View(), sha) && from in manifests
      ensures r.Ok? <==> CarriesAll(View(), from, to, ids, artefacts, sha)
      ensures r.Ok? ==>
        var (entries, send, skip) := r.value;
        && AreEntries(manifests, from, to, ids, artefacts, entries)
        && (forall key | key in send :: (from, key) in objects)
        && (forall key :: key in send <==> CarriesAny(manifests[from], ids, artefacts, key) && (to, key) !in objects)
        && (forall key :: key in skip <==> CarriesAny(manifests[from], ids, artefacts, key) && (to, key) in objects)
        && (forall k | 0 <= k < |ids| :: CarryPlanned(View(), from, to, ids[k], artefacts, send, sha))
    {
      hide Consistent, CanCarry, EntryFor, NoCarryDiffers, CarryPlanned, Carries, CarriesAny;
      var entries: map<string, Entry> := map[];
      var send: seq<string>, skip: seq<string>, differ := [], [], false;
      NothingCarried(manifests[from], artefacts);
      assert ids[..0] == [] && ids[..|ids|] == ids;
      var i := 0;
      while i < |ids|
        invariant 0 <= i <= |ids|
        invariant forall k | 0 <= k < i :: CanCarry(manifests[from], ids[k], artefacts)
        invariant !differ <==> forall k | 0 <= k < i :: NoCarryDiffers(View(), from, to, ids[k], artefacts, sha)
        invariant forall k | 0 <= k < i ::
          ids[k] in entries && entries[ids[k]] == EntryFor(manifests, from, to, ids[k], artefacts)
        invariant forall id | id in entries :: exists k | 0 <= k < i :: ids[k] == id
        invariant forall key | key in send :: (from, key) in objects
        invariant forall key :: key in send <==>
          CarriesAny(manifests[from], ids[..i], artefacts, key) && (to, key) !in objects
        invariant !differ ==>
          forall key :: key in skip <==> CarriesAny(manifests[from], ids[..i], artefacts, key) && (to, key) in objects
        invariant !differ ==> forall k | 0 <= k < i :: CarryPlanned(View(), from, to, ids[k], artefacts, send, sha)
      {
        var one := PlanDataset(from, to, ids[i], artefacts);
        if one.Err? {
          return Err(());
        }
        var (entry, more, same, differing) := one.value;
        entries := entries[ids[i] := entry];
        PlansGrow(View(), from, to, ids[..i], artefacts, send, more, sha);
        assert forall k | 0 <= k < i :: ids[..i][k] == ids[k];
        PlanJoins(View(), from, to, ids[i], artefacts, send, more, sha);
        CarriesMore(manifests[from], ids, i, artefacts);
        send, skip := send + more, skip + same;
        differ := differ || differing != [];
        i := i + 1;
      }
      if differ {
        return Err(());
      }
      r := Ok((entries, send, skip));
    }

    /** The end of `carry_forward`: the manifest is written if anything was copied or is recorded anew. */
    method PublishCarried(to: nat, entries: map<string, Entry>, copied: bool) returns (done: bool, ghost ws: seq<Write>)
      requires Consistent(View(), sha) && AllStored(View(), to, entries, sha)
      modifies this
      ensures SafeRun(old(View()), ws, sha) && View() == Run(old(View()), ws)
      ensures !done ==> ws == [] && to in old(manifests) && old(manifests)[to].chain != to
      ensures ws == [] || (|ws| == 1 && ws[0].WriteManifest?)
      ensures done && copied ==> ws != []
      ensures !copied && (forall id | id in entries ::
          to in old(manifests) && id in old(manifests)[to].datasets &&
            old(manifests)[to].datasets[id] == entries[id]) ==>
        done && ws == []
      ensures done ==>
        && (forall id | id in entries ::
          to in manifests && id in manifests[to].datasets && manifests[to].datasets[id] == entries[id])
        && (forall n | n in old(manifests) :: n in manifests && (n != to ==> manifests[n] == old(manifests)[n]))
        && (to in old(manifests) ==> manifests[to].chain == old(manifests)[to].chain)
        && (to in old(manifests) ==> forall id | id in old(manifests)[to].datasets && id !in entries ::
              id in manifests[to].datasets && manifests[to].datasets[id] == old(manifests)[to].datasets[id])
    {
      hide SafeRun, Run, Consistent, AllStored;
      NoWrites(View(), sha);
      ws, done := [], true;
      if copied || exists id | id in entries ::
        !(to in manifests && id in manifests[to].datasets && manifests[to].datasets[id] == entries[id])
      {
        var m;
        m, ws := PublishManifest(to, entries);
        done := m.Ok?;
      }
    }

    /** `carry_forward`: copies the recorded artefacts of datasets into the folder of another
        chain version and merges their entries into its manifest, which is written last. It
        refuses before anything is copied when something is missing or differs. */
    method CarryForward(from: nat, to: nat, ids: seq<string>, artefacts: seq<string>)
      returns (r: Result<(seq<string>, seq<string>), ()>, ghost ws: seq<Write>)
      requires Consistent(View(), sha)
      modifies this
      ensures SafeRun(old(View()), ws, sha) && View() == Run(old(View()), ws)
      ensures !MayCarry(old(View()), from, to, ids, artefacts, sha) ==> r.Err? && ws == []
      ensures (to in old(manifests) ==> old(manifests)[to].chain == to) ==>
        (r.Ok? <==> MayCarry(old(View()), from, to, ids, artefacts, sha))
      ensures forall k | 0 <= k < |ws| :: ws[k].CopyObject? || (k == |ws| - 1 && ws[k].WriteManifest?)
      ensures r.Ok? ==>
        && (forall key :: key in r.value.0 <==>
          CarriesAny(old(manifests)[from], ids, artefacts, key) && (to, key) !in old(objects))
        && (forall key :: key in r.value.1 <==>
          CarriesAny(old(manifests)[from], ids, artefacts, key) && (to, key) in old(objects))
      ensures r.Ok? ==> IsCarried(View(), from, to, ids, artefacts, sha)
      ensures IsCarried(old(View()), from, to, ids, artefacts, sha) ==> r.Ok? && ws == []
      ensures r.Ok? ==>
        && (ws != [] ==> ws[|ws| - 1].WriteManifest?)
        && (ids != [] ==> to in manifests)
        && (forall k | 0 <= k < |ids| ::
              ids[k] in manifests[to].datasets
              && manifests[to].datasets[ids[k]] == EntryFor(old(manifests), from, to, ids[k], artefacts))
        && (forall n | n in old(manifests) :: n in manifests && (n != to ==> manifests[n] == old(manifests)[n]))
        && (to in old(manifests) ==> forall id | id in old(manifests)[to].datasets && id !in ids ::
              id in manifests[to].datasets && manifests[to].datasets[id] == old(manifests)[to].datasets[id])
    {
      hide SafeRun, Run, Consistent, CanCarry, EntryFor, NoCarryDiffers, CarryPlanned, Stored, CarriesAny, IsCarried;
      ghost var before := View();
      NoWrites(before, sha);
      ws := [];
      CarriedMayCarry(before, from, to, ids, artefacts, sha);
      if from !in manifests || manifests[from].chain != from {
        return Err(()), [];
      }
      var plan := PlanAll(from, to, ids, artefacts);
      if plan.Err? {
        return Err(()), [];
      }
      var (entries, send, skip) := plan.value;
      ws := CopyAll(from, to, send);
      RunKeeps(before, ws, sha);
      ghost var copied := View();
      CarriedStored(before, copied, from, to, ids, artefacts, send, entries, sha);
      CarriedNothingNew(before, from, to, ids, artefacts, send, entries, sha);
      assert ids != [] ==> ids[0] in entries;
      var done, last := PublishCarried(to, entries, send != []);
      RunConcat(before, ws, last, sha);
      ws := ws + last;
      if !done {
        return Err(()), ws;
      }
      RunKeeps(before, ws, sha);
      NowIsCarried(before, View(), from, to, ids, artefacts, sha);
      r := Ok((send, skip));
    }

    /** The upload of benchmark/scripts/bench_suite.py: every rebuilt dataset, one after the
        other, and then, if anything was sent or recorded anew, the manifest. It succeeds
        exactly when no dataset has a key with another content in the bucket or in a dataset
        before it, and the manifest, if it must be written, is the chain's own. A run that
        reproduces what the manifest records writes nothing. */
    method UploadRun(chain: nat, ids: seq<string>, records: seq<Entry>, prepared: seq<map<string, Content>>)
      returns (r: Result<(), ()>, ghost ws: seq<Write>)
      requires Consistent(View(), sha) && |records| == |prepared| == |ids|
      requires forall k | 0 <= k < |ids| :: Describes(records[k], prepared[k], sha)
      requires forall j, k | 0 <= j < k < |ids| :: ids[j] != ids[k]
      modifies this
      ensures SafeRun(old(View()), ws, sha) && View() == Run(old(View()), ws)
      ensures forall k | 0 <= k < |ws| :: ws[k].Put? || (k == |ws| - 1 && ws[k].WriteManifest?)
      ensures r.Ok? ==> forall k | 0 <= k < |ids| :: Stored(View(), chain, records[k], sha)
      ensures r.Ok? ==> AllUnchanged(manifests, chain, ids, records, |ids|)
      ensures r.Ok? ==> forall k | 0 <= k < |ids| ::
        IsPublished(old(manifests), manifests, chain, ids[k], records[k])
      ensures r.Ok? ==> OnlyTheseChange(old(manifests), manifests, chain, ids)
      ensures r.Ok? <==>
        && FitTo(old(View()), chain, records, |ids|, sha)
        && (chain in old(manifests) && old(manifests)[chain].chain != chain ==>
              AllUnchanged(old(manifests), chain, ids, records, |ids|))
      ensures AllUnchanged(old(manifests), chain, ids, records, |ids|) ==> r.Ok? && ws == []
    {
      hide FitTo, AllUnchanged, OnlyListed, SafeRun, Run, Consistent, Describes, NoneDiffers, Stored, AllStored,
        Trusted, Listed, Unchanged, Keeps, Progress, IsPublished, OnlyTheseChange;
      ghost var before := View();
      KeepsSelf(before);
      NoWrites(before, sha);
      ws := [];
      var existing := if chain in manifests then Some(manifests[chain]) else None;
      ExistingIsTrusted(before, chain, existing, sha);
      var entries: map<string, Entry> := map[];
      var k := 0;
      NoProgress(before, chain, ids, records, sha);
      FitToNone(before, chain, records, sha);
      NothingListed(before, chain, ids, records);
      while k < |ids|
        invariant 0 <= k <= |ids| && manifests == before.manifests
        invariant SafeRun(before, ws, sha) && View() == Run(before, ws) && Keeps(before, View())
        invariant forall w | w in ws :: w.Put?
        invariant Progress(View(), chain, ids, records, entries, k, sha)
        invariant entries == map[] <==> AllUnchanged(before.manifests, chain, ids, records, k)
        invariant entries == map[] ==> ws == []
        invariant FitTo(before, chain, records, k, sha) && OnlyListed(before, View(), chain, records, k)
      {
        UnchangedNext(before.manifests, chain, ids, records, k);
        FitsNext(before, View(), chain, ids, records, entries, k, sha);
        TrustStays(before, View(), chain, existing, sha);
        ghost var now := View();
        ghost var there := objects;
        var same := Unchanged(manifests, chain, ids[k], records[k]);
        if same {
          UnchangedIsStored(now, chain, existing, ids[k], records[k], sha);
        }
        var one, more := UploadDataset(chain, prepared[k], records[k], ids[k], existing);
        OnlyListedNext(before, now, View(), chain, records, k);
        RunKeeps(now, more, sha);
        KeepsAlong(before, now, View());
        RunConcat(before, ws, more, sha);
        ws := ws + more;
        if one.Err? {
          FitsBefore(before, chain, records, k + 1, |ids|, sha);
          SomethingChanged(before, chain, existing, ids, records, sha);
          return Err(()), ws;
        }
        if same {
          NothingToSend(there, chain, records[k], one.value.0);
        }
        ghost var soFar := entries;
        if one.value.0 != [] || !same {
          entries := entries[ids[k] := records[k]];
        }
        ProgressGrows(now, View(), chain, ids, records, soFar, entries, k, sha);
        k := k + 1;
      }
      if entries != map[] {
        EntriesAreStored(View(), chain, ids, records, entries, k, sha);
        RunKeeps(before, ws, sha);
        ghost var now := View();
        var m, last := PublishManifest(chain, entries);
        RunKeeps(now, last, sha);
        RunConcat(before, ws, last, sha);
        ws := ws + last;
        if m.Err? {
          return Err(()), ws;
        }
        PublishedIsUnchanged(now, View(), chain, ids, records, entries, sha);
        OthersStay(now, View(), chain, ids, records, entries, sha);
        TheseArePublished(now, View(), chain, ids, records, entries, sha);
      } else {
        NothingToPublish(View(), chain, ids, records, k, sha);
        NoneChange(manifests, chain, ids);
        StillPublished(manifests, chain, ids, records);
      }
      UnchangedAll(manifests, chain, ids, records, k);
      r := Ok(());
    }
  }

  // ----- what is carried

  /** The artefacts that are asked for: all of the dataset's when none are named. */
  function WantedArtefacts(hosted: Entry, artefacts: seq<string>): set<string> {
    if artefacts == [] then hosted.artefacts.Keys else set a | a in artefacts
  }

  predicate CanCarry(from: Manifest, id: string, artefacts: seq<string>) {
    id in from.datasets && WantedArtefacts(from.datasets[id], artefacts) <= from.datasets[id].artefacts.Keys
  }

  function CarriedArtefacts(hosted: Entry, artefacts: seq<string>): map<string, Record> {
    map a | a in hosted.artefacts && a in WantedArtefacts(hosted, artefacts) :: hosted.artefacts[a]
  }

  /** The entry that `carry_forward` writes: the current one with the carried artefacts, or the old one. */
  function CarriedEntry(manifests: map<nat, Manifest>, from: nat, to: nat, id: string, 
                        carried: map<string, Record>): Entry
    requires from in manifests && id in manifests[from].datasets
  {
    if to in manifests && id in manifests[to].datasets then
      var current := manifests[to].datasets[id];
      current.(artefacts := current.artefacts + carried)
    else
      var hosted := manifests[from].datasets[id];
      Entry(hosted.source, hosted.built, Some(from), carried)
  }

  /** Artefact `a` of a dataset is asked for: it is named, or none is. */
  predicate IsAskedFor(hosted: Entry, artefacts: seq<string>, a: string) {
    a in hosted.artefacts && (artefacts == [] || a in artefacts)
  }

  /** A dataset can be carried when the manifest has it with every artefact that is named. */
  lemma CanCarryIs(from: Manifest, id: string, artefacts: seq<string>)
    ensures CanCarry(from, id, artefacts) <==>
      id in from.datasets && forall k | 0 <= k < |artefacts| :: artefacts[k] in from.datasets[id].artefacts
  {
    assert forall k | 0 <= k < |artefacts| :: artefacts[k] in artefacts;
  }

  lemma CarriesIs(source: Manifest, id: string, artefacts: seq<string>, key: string)
    ensures Carries(source, id, artefacts, key) <==>
      id in source.datasets && var hosted := source.datasets[id];
        exists a | a in hosted.artefacts :: IsAskedFor(hosted, artefacts, a) && key in hosted.artefacts[a]
  {
    if Carries(source, id, artefacts, key) {
      var a :| InCarried(source, id, artefacts, a, key);
      assert IsAskedFor(source.datasets[id], artefacts, a);
    }
    if id in source.datasets {
      var hosted := source.datasets[id];
      if a :| a in hosted.artefacts && IsAskedFor(hosted, artefacts, a) && key in hosted.artefacts[a] {
        assert InCarried(source, id, artefacts, a, key);
      }
    }
  }

  /** The entry that carrying leaves in the new manifest. It has the artefacts asked for, with their
      old records, and those that it had. A dataset that is new there keeps its source and build and
      says where it comes from; one that was there keeps what it said of all three. */
  lemma EntryIs(manifests: map<nat, Manifest>, from: nat, to: nat, id: string, artefacts: seq<string>)
    requires from in manifests && CanCarry(manifests[from], id, artefacts)
    ensures var e, hosted := EntryFor(manifests, from, to, id, artefacts), manifests[from].datasets[id];
      && (forall a | IsAskedFor(hosted, artefacts, a) :: a in e.artefacts && e.artefacts[a] == hosted.artefacts[a])
      && if to in manifests && id in manifests[to].datasets then
           var current := manifests[to].datasets[id];
           && e.source == current.source && e.built == current.built && e.carriedFrom == current.carriedFrom
           && (forall a :: a in e.artefacts <==> a in current.artefacts || IsAskedFor(hosted, artefacts, a))
           && forall a | a in current.artefacts && !IsAskedFor(hosted, artefacts, a) ::
                e.artefacts[a] == current.artefacts[a]
         else
           && e.source == hosted.source && e.built == hosted.built && e.carriedFrom == Some(from)
           && forall a :: a in e.artefacts <==> IsAskedFor(hosted, artefacts, a)
  {
  }

  /** What is carried is in the old folder as recorded. */
  lemma CarriedMatch(b: Bucket, from: nat, hosted: Entry, artefacts: seq<string>, wanted: Record, sha: Hash)
    requires Stored(b, from, hosted, sha)
    requires IsFlat(CarriedArtefacts(hosted, artefacts), wanted)
    ensures var carried := CarriedArtefacts(hosted, artefacts);
      && (forall a, key | a in carried && key in carried[a] ::
        key in wanted && Matches(b, from, key, carried[a][key], sha))
      && (forall a, key | a in carried && key in carried[a] :: wanted[key] == carried[a][key])
      && (forall key | key in wanted :: (from, key) in b.objects)
  {
    var carried := CarriedArtefacts(hosted, artefacts);
    forall a, key | a in carried && key in carried[a]
      ensures key in wanted && Matches(b, from, key, carried[a][key], sha)
    {
      assert RecordStored(b, from, hosted.artefacts[a], sha);
    }
    forall key | key in wanted ensures Matches(b, from, key, wanted[key], sha) {
      var a :| a in carried && key in carried[a] && carried[a][key] == wanted[key];
      assert RecordStored(b, from, hosted.artefacts[a], sha);
    }
  }

  lemma CarriedDiffer(b: Bucket, from: nat, to: nat, id: string, artefacts: seq<string>, wanted: Record,
                      differing: seq<string>, sha: Hash)
    requires from in b.manifests && CanCarry(b.manifests[from], id, artefacts)
    requires var carried := CarriedArtefacts(b.manifests[from].datasets[id], artefacts);
      IsFlat(carried, wanted) && forall a, key | a in carried && key in carried[a] :: wanted[key] == carried[a][key]
    requires forall key :: key in differing <==>
      key in wanted && (to, key) in b.objects && !Matches(b, to, key, wanted[key], sha)
    ensures differing == [] <==> NoCarryDiffers(b, from, to, id, artefacts, sha)
  {
    hide Matches;
    var carried := CarriedArtefacts(b.manifests[from].datasets[id], artefacts);
    if differing != [] {
      var key := differing[0];
      assert key in differing;
      var a :| a in carried && key in carried[a] && carried[a][key] == wanted[key];
      assert InCarried(b.manifests[from], id, artefacts, a, key);
    } else {
      forall a, key | InCarried(b.manifests[from], id, artefacts, a, key) && (to, key) in b.objects
        ensures Matches(b, to, key, b.manifests[from].datasets[id].artefacts[a][key], sha)
      {
        assert key in wanted && wanted[key] == carried[a][key] && key !in differing;
      }
    }
  }

  lemma CarriedIsPlanned(b: Bucket, from: nat, to: nat, id: string, artefacts: seq<string>, wanted: Record,
                         send: seq<string>, sha: Hash)
    requires from in b.manifests && CanCarry(b.manifests[from], id, artefacts)
    requires NoCarryDiffers(b, from, to, id, artefacts, sha)
    requires var carried := CarriedArtefacts(b.manifests[from].datasets[id], artefacts);
      forall a, key | a in carried && key in carried[a] :: key in wanted && Matches(b, from, key, carried[a][key], sha)
    requires forall key :: key in send <==> key in wanted && (to, key) !in b.objects
    ensures CarryPlanned(b, from, to, id, artefacts, send, sha)
  {
    hide Matches;
    var carried := CarriedArtefacts(b.manifests[from].datasets[id], artefacts);
    forall a, key | InCarried(b.manifests[from], id, artefacts, a, key)
      ensures var info := b.manifests[from].datasets[id].artefacts[a][key];
        Matches(b, from, key, info, sha) && (key in send || Matches(b, to, key, info, sha))
    {
      assert key in wanted && carried[a][key] == b.manifests[from].datasets[id].artefacts[a][key];
    }
  }

  /** Key `key` belongs to an artefact of dataset `id` that is carried. */
  predicate InCarried(source: Manifest, id: string, artefacts: seq<string>, a: string, key: string) {
    id in source.datasets
    && var carried := CarriedArtefacts(source.datasets[id], artefacts); a in carried && key in carried[a]
  }

  /** Key `key` is among what is carried of dataset `id`. */
  ghost predicate Carries(source: Manifest, id: string, artefacts: seq<string>, key: string) {
    exists a :: InCarried(source, id, artefacts, a, key)
  }

  ghost predicate CarriesAny(source: Manifest, ids: seq<string>, artefacts: seq<string>, key: string) {
    exists k | 0 <= k < |ids| :: Carries(source, ids[k], artefacts, key)
  }

  lemma CarriedKeys(source: Manifest, id: string, artefacts: seq<string>, wanted: Record)
    requires id in source.datasets && IsFlat(CarriedArtefacts(source.datasets[id], artefacts), wanted)
    ensures forall key :: key in wanted <==> Carries(source, id, artefacts, key)
  {
    forall key ensures key in wanted <==> Carries(source, id, artefacts, key) {
      var carried := CarriedArtefacts(source.datasets[id], artefacts);
      if key in wanted {
        var a :| a in carried && key in carried[a] && carried[a][key] == wanted[key];
        assert InCarried(source, id, artefacts, a, key);
      }
    }
  }

  lemma NoneOf(keys: seq<string>)
    requires keys == []
    ensures forall key :: key !in keys
  {
  }

  lemma NothingCarried(source: Manifest, artefacts: seq<string>)
    ensures forall key :: !CarriesAny(source, [], artefacts, key)
  {
  }

  lemma CarriesMore(source: Manifest, ids: seq<string>, i: nat, artefacts: seq<string>)
    requires i < |ids|
    ensures forall key :: CarriesAny(source, ids[..i + 1], artefacts, key) <==>
      CarriesAny(source, ids[..i], artefacts, key) || Carries(source, ids[i], artefacts, key)
  {
    hide Carries;
    forall key ensures CarriesAny(source, ids[..i + 1], artefacts, key) <==>
      CarriesAny(source, ids[..i], artefacts, key) || Carries(source, ids[i], artefacts, key)
    {
      if CarriesAny(source, ids[..i + 1], artefacts, key) {
        var k :| 0 <= k < i + 1 && Carries(source, ids[..i + 1][k], artefacts, key);
        if k < i { assert ids[..i][k] == ids[..i + 1][k]; }
      }
      if CarriesAny(source, ids[..i], artefacts, key) {
        var k :| 0 <= k < i && Carries(source, ids[..i][k], artefacts, key);
        assert ids[..i + 1][k] == ids[..i][k];
      }
      assert ids[..i + 1][i] == ids[i];
    }
  }

  /** There is nothing left to carry: everything is in the new folder and recorded in its manifest. */
  ghost predicate IsCarried(b: Bucket, from: nat, to: nat, ids: seq<string>, artefacts: seq<string>, sha: Hash) {
    && MayCarry(b, from, to, ids, artefacts, sha)
    && (forall key | CarriesAny(b.manifests[from], ids, artefacts, key) :: (to, key) in b.objects)
    && forall k | 0 <= k < |ids| ::
         to in b.manifests && ids[k] in b.manifests[to].datasets
         && b.manifests[to].datasets[ids[k]] == EntryFor(b.manifests, from, to, ids[k], artefacts)
  }

  lemma CarriedMayCarry(b: Bucket, from: nat, to: nat, ids: seq<string>, artefacts: seq<string>, sha: Hash)
    ensures IsCarried(b, from, to, ids, artefacts, sha) ==> MayCarry(b, from, to, ids, artefacts, sha)
  {
    hide MayCarry;
  }

  lemma CarriedNothingNew(b: Bucket, from: nat, to: nat, ids: seq<string>, artefacts: seq<string>,
                          send: seq<string>, entries: map<string, Entry>, sha: Hash)
    requires MayCarry(b, from, to, ids, artefacts, sha) && AreEntries(b.manifests, from, to, ids, artefacts, entries)
    requires forall key | key in send :: CarriesAny(b.manifests[from], ids, artefacts, key) && (to, key) !in b.objects
    ensures IsCarried(b, from, to, ids, artefacts, sha) ==> send == []
    ensures IsCarried(b, from, to, ids, artefacts, sha) ==> forall id | id in entries ::
      to in b.manifests && id in b.manifests[to].datasets && b.manifests[to].datasets[id] == entries[id]
  {
    hide MayCarry, CarriesAny, EntryFor, CanCarry;
    if IsCarried(b, from, to, ids, artefacts, sha) {
      if send != [] { var key := FirstOf(send); }
      forall id | id in entries
        ensures to in b.manifests && id in b.manifests[to].datasets && b.manifests[to].datasets[id] == entries[id]
      {
        var k :| 0 <= k < |ids| && ids[k] == id;
      }
    }
  }

  /** After a carry there is nothing left to carry. */
  lemma NowIsCarried(b: Bucket, c: Bucket, from: nat, to: nat, ids: seq<string>, artefacts: seq<string>, sha: Hash)
    requires MayCarry(b, from, to, ids, artefacts, sha) && Consistent(c, sha)
    requires from in c.manifests && c.manifests[from].chain == from &&
      (from != to ==> c.manifests[from] == b.manifests[from])
    requires forall k | 0 <= k < |ids| ::
      to in c.manifests && ids[k] in c.manifests[to].datasets
      && c.manifests[to].datasets[ids[k]] == EntryFor(b.manifests, from, to, ids[k], artefacts)
    ensures IsCarried(c, from, to, ids, artefacts, sha)
  {
    forall k | 0 <= k < |ids|
      ensures CanCarry(c.manifests[from], ids[k], artefacts)
      ensures c.manifests[to].datasets[ids[k]] == EntryFor(c.manifests, from, to, ids[k], artefacts)
      ensures forall a, key | InCarried(c.manifests[from], ids[k], artefacts, a, key) ::
        Matches(c, to, key, c.manifests[from].datasets[ids[k]].artefacts[a][key], sha)
    {
      OneIsCarried(b, c, from, to, ids[k], artefacts, sha);
    }
  }

  lemma OneIsCarried(b: Bucket, c: Bucket, from: nat, to: nat, id: string, artefacts: seq<string>, sha: Hash)
    requires from in b.manifests && CanCarry(b.manifests[from], id, artefacts) && Consistent(c, sha)
    requires from in c.manifests && (from != to ==> c.manifests[from] == b.manifests[from])
    requires to in c.manifests && id in c.manifests[to].datasets
    requires c.manifests[to].datasets[id] == EntryFor(b.manifests, from, to, id, artefacts)
    ensures CanCarry(c.manifests[from], id, artefacts)
    ensures c.manifests[to].datasets[id] == EntryFor(c.manifests, from, to, id, artefacts)
    ensures forall a, key | InCarried(c.manifests[from], id, artefacts, a, key) ::
      Matches(c, to, key, c.manifests[from].datasets[id].artefacts[a][key], sha)
  {
    var hosted := b.manifests[from].datasets[id];
    var carried := CarriedArtefacts(hosted, artefacts);
    var entry := c.manifests[to].datasets[id];
    if from == to { assert hosted.artefacts + carried == hosted.artefacts; }
    assert c.manifests[from].datasets[id] == hosted;
    assert entry.artefacts + carried == entry.artefacts;
    assert Stored(c, to, entry, sha);
    forall a, key | InCarried(c.manifests[from], id, artefacts, a, key)
      ensures Matches(c, to, key, hosted.artefacts[a][key], sha)
    {
      assert entry.artefacts[a] == carried[a];
      assert RecordStored(c, to, entry.artefacts[a], sha);
    }
  }

  function EntryFor(manifests: map<nat, Manifest>, from: nat, to: nat, id: string, artefacts: seq<string>): Entry
    requires from in manifests && CanCarry(manifests[from], id, artefacts)
  {
    CarriedEntry(manifests, from, to, id, CarriedArtefacts(manifests[from].datasets[id], artefacts))
  }

  ghost predicate NoCarryDiffers(b: Bucket, from: nat, to: nat, id: string, artefacts: seq<string>, sha: Hash)
    requires from in b.manifests
  {
    forall a, key | InCarried(b.manifests[from], id, artefacts, a, key) && (to, key) in b.objects ::
      Matches(b, to, key, b.manifests[from].datasets[id].artefacts[a][key], sha)
  }

  ghost predicate CarryPlanned(b: Bucket, from: nat, to: nat, id: string, artefacts: seq<string>, send: seq<string>,
      sha: Hash)
    requires from in b.manifests
  {
    forall a, key | InCarried(b.manifests[from], id, artefacts, a, key) ::
      var info := b.manifests[from].datasets[id].artefacts[a][key];
      Matches(b, from, key, info, sha) && (key in send || Matches(b, to, key, info, sha))
  }

  /** Every dataset and artefact asked for is in the old manifest, and nothing of it is in the
      new folder with other content. */
  ghost predicate CarriesAll(b: Bucket, from: nat, to: nat, ids: seq<string>, artefacts: seq<string>, sha: Hash)
    requires from in b.manifests
  {
    && (forall k | 0 <= k < |ids| :: CanCarry(b.manifests[from], ids[k], artefacts))
    && (forall k | 0 <= k < |ids| :: NoCarryDiffers(b, from, to, ids[k], artefacts, sha))
  }

  /** The entries that `carry_forward` merges, by dataset. */
  ghost predicate AreEntries(manifests: map<nat, Manifest>, from: nat, to: nat, ids: seq<string>,
                             artefacts: seq<string>, entries: map<string, Entry>)
    requires from in manifests && forall k | 0 <= k < |ids| :: CanCarry(manifests[from], ids[k], artefacts)
  {
    && (forall k | 0 <= k < |ids| ::
      ids[k] in entries && entries[ids[k]] == EntryFor(manifests, from, to, ids[k], artefacts))
    && (forall id | id in entries :: exists k | 0 <= k < |ids| :: ids[k] == id)
  }

  ghost predicate MayCarry(b: Bucket, from: nat, to: nat, ids: seq<string>, artefacts: seq<string>, sha: Hash) {
    from in b.manifests && b.manifests[from].chain == from && CarriesAll(b, from, to, ids, artefacts, sha)
  }

  lemma PlanJoins(b: Bucket, from: nat, to: nat, id: string, artefacts: seq<string>,
                  before: seq<string>, more: seq<string>, sha: Hash)
    requires from in b.manifests
    ensures CarryPlanned(b, from, to, id, artefacts, before, sha) || CarryPlanned(b, from, to, id, artefacts, more, sha)
      ==> CarryPlanned(b, from, to, id, artefacts, before + more, sha)
  {
    hide InCarried, Matches;
  }

  lemma PlansGrow(b: Bucket, from: nat, to: nat, ids: seq<string>, artefacts: seq<string>,
                  before: seq<string>, more: seq<string>, sha: Hash)
    requires from in b.manifests
    ensures forall k | 0 <= k < |ids| :: CarryPlanned(b, from, to, ids[k], artefacts, before, sha) ==>
      CarryPlanned(b, from, to, ids[k], artefacts, before + more, sha)
  {
    hide CarryPlanned;
    forall k | 0 <= k < |ids| && CarryPlanned(b, from, to, ids[k], artefacts, before, sha)
      ensures CarryPlanned(b, from, to, ids[k], artefacts, before + more, sha)
    {
      PlanJoins(b, from, to, ids[k], artefacts, before, more, sha);
    }
  }

  /** After the copies, everything the new entries list is in the new folder. */
  lemma CarriedStored(b: Bucket, c: Bucket, from: nat, to: nat, ids: seq<string>, artefacts: seq<string>,
                      send: seq<string>, entries: map<string, Entry>, sha: Hash)
    requires Consistent(b, sha) && from in b.manifests && Keeps(b, c) && c.manifests == b.manifests
    requires forall k | 0 <= k < |ids| :: CanCarry(b.manifests[from], ids[k], artefacts)
    requires AreEntries(b.manifests, from, to, ids, artefacts, entries)
    requires forall k | 0 <= k < |ids| :: CarryPlanned(b, from, to, ids[k], artefacts, send, sha)
    requires forall key | key in send ::
      (from, key) in b.objects && (to, key) in c.objects && c.objects[(to, key)] == b.objects[(from, key)]
    ensures AllStored(c, to, entries, sha)
  {
    hide Consistent, CanCarry, EntryFor, CarryPlanned, Stored;
    forall id | id in entries ensures Stored(c, to, entries[id], sha) {
      var k :| 0 <= k < |ids| && ids[k] == id;
      EntryIsStored(b, c, from, to, id, artefacts, send, sha);
    }
  }

  lemma EntryIsStored(b: Bucket, c: Bucket, from: nat, to: nat, id: string, artefacts: seq<string>, send: seq<string>,
      sha: Hash)
    requires Consistent(b, sha) && from in b.manifests && Keeps(b, c) && c.manifests == b.manifests
    requires CanCarry(b.manifests[from], id, artefacts) && CarryPlanned(b, from, to, id, artefacts, send, sha)
    requires forall key | key in send ::
      (from, key) in b.objects && (to, key) in c.objects && c.objects[(to, key)] == b.objects[(from, key)]
    ensures Stored(c, to, EntryFor(b.manifests, from, to, id, artefacts), sha)
  {
    var entry := EntryFor(b.manifests, from, to, id, artefacts);
    var carried := CarriedArtefacts(b.manifests[from].datasets[id], artefacts);
    forall a, key | a in entry.artefacts && key in entry.artefacts[a]
      ensures Matches(c, to, key, entry.artefacts[a][key], sha)
    {
      if a in carried {
        assert InCarried(b.manifests[from], id, artefacts, a, key);
        assert entry.artefacts[a] == carried[a] == b.manifests[from].datasets[id].artefacts[a];
      } else {
        assert AllStored(b, to, b.manifests[to].datasets, sha);
        assert Stored(b, to, b.manifests[to].datasets[id], sha);
        assert RecordStored(b, to, entry.artefacts[a], sha);
        assert Matches(b, to, key, entry.artefacts[a][key], sha);
      }
    }
  }

  // ----- a whole upload

  /** `entry_unchanged`: only `built` may differ. */
  predicate Unchanged(manifests: map<nat, Manifest>, chain: nat, id: string, entry: Entry) {
    && chain in manifests && id in manifests[chain].datasets
    && manifests[chain].datasets[id].source == entry.source
    && manifests[chain].datasets[id].artefacts == entry.artefacts
  }

  lemma ExistingIsTrusted(b: Bucket, chain: nat, existing: Option<Manifest>, sha: Hash)
    requires Consistent(b, sha) && existing == if chain in b.manifests then Some(b.manifests[chain]) else None
    ensures Trusted(b, chain, existing, sha)
  {
  }

  lemma TrustStays(b: Bucket, c: Bucket, chain: nat, existing: Option<Manifest>, sha: Hash)
    requires Trusted(b, chain, existing, sha) && Keeps(b, c)
    ensures Trusted(c, chain, existing, sha)
  {
    if existing.Some? { AllStoredStays(b, c, chain, existing.value.datasets, sha); }
  }

  lemma KeepsSelf(b: Bucket)
    ensures Keeps(b, b)
  {
  }

  lemma KeepsAlong(a: Bucket, b: Bucket, c: Bucket)
    requires Keeps(a, b) && Keeps(b, c)
    ensures Keeps(a, c)
  {
  }

  lemma FirstOf(keys: seq<string>) returns (key: string)
    requires keys != []
    ensures key in keys
  {
    key := keys[0];
  }

  lemma NothingToSend(objects: map<(nat, string), Content>, chain: nat, entry: Entry, sent: seq<string>)
    requires forall key | key in sent :: Listed(entry, key) && (chain, key) !in objects
    requires forall key | Listed(entry, key) :: (chain, key) in objects
    ensures sent == []
  {
    if sent != [] { var key := FirstOf(sent); }
  }

  lemma UnchangedIsStored(b: Bucket, chain: nat, existing: Option<Manifest>, id: string, entry: Entry, sha: Hash)
    requires Trusted(b, chain, existing, sha)
    requires existing == if chain in b.manifests then Some(b.manifests[chain]) else None
    requires Unchanged(b.manifests, chain, id, entry)
    ensures Stored(b, chain, entry, sha) && NoneDiffers(b, chain, entry, sha)
    ensures forall key | Listed(entry, key) :: (chain, key) in b.objects
  {
    assert Stored(b, chain, existing.value.datasets[id], sha);
    forall a | a in entry.artefacts ensures RecordStored(b, chain, entry.artefacts[a], sha) {
    }
    forall a, key | a in entry.artefacts && key in entry.artefacts[a]
      ensures Matches(b, chain, key, entry.artefacts[a][key], sha)
    {
      assert RecordStored(b, chain, entry.artefacts[a], sha);
    }
  }

  /** After `k` datasets: each is stored, and due for the manifest or recorded in it as it is. */
  ghost predicate Progress(b: Bucket, chain: nat, ids: seq<string>, records: seq<Entry>,
                           entries: map<string, Entry>, k: nat, sha: Hash)
    requires k <= |ids| == |records|
  {
    && (forall j | 0 <= j < k :: Stored(b, chain, records[j], sha))
    && (forall j | 0 <= j < k :: ids[j] in entries || Unchanged(b.manifests, chain, ids[j], records[j]))
    && (forall id | id in entries :: exists j | 0 <= j < k :: ids[j] == id && entries[id] == records[j])
  }

  lemma NoProgress(b: Bucket, chain: nat, ids: seq<string>, records: seq<Entry>, sha: Hash)
    requires |ids| == |records|
    ensures Progress(b, chain, ids, records, map[], 0, sha)
  {
  }

  lemma ProgressGrows(b: Bucket, c: Bucket, chain: nat, ids: seq<string>, records: seq<Entry>,
                      entries: map<string, Entry>, next: map<string, Entry>, k: nat, sha: Hash)
    requires k < |ids| == |records| && Progress(b, chain, ids, records, entries, k, sha)
    requires Keeps(b, c) && c.manifests == b.manifests && Stored(c, chain, records[k], sha)
    requires next == entries[ids[k] := records[k]]
      || (next == entries && Unchanged(c.manifests, chain, ids[k], records[k]))
    requires forall i, j | 0 <= i < j < |ids| :: ids[i] != ids[j]
    ensures Progress(c, chain, ids, records, next, k + 1, sha)
  {
    hide Stored, Unchanged, Keeps;
    forall j | 0 <= j < k ensures Stored(c, chain, records[j], sha) {
      StoredStays(b, c, chain, records[j], sha);
    }
    forall id | id in next ensures exists j | 0 <= j < k + 1 :: ids[j] == id && next[id] == records[j] {
      if id == ids[k] && next != entries {
        assert next[id] == records[k];
      } else {
        var j :| 0 <= j < k && ids[j] == id && entries[id] == records[j];
      }
    }
  }

  lemma EntriesAreStored(b: Bucket, chain: nat, ids: seq<string>, records: seq<Entry>,
                         entries: map<string, Entry>, k: nat, sha: Hash)
    requires k <= |ids| == |records| && Progress(b, chain, ids, records, entries, k, sha)
    ensures AllStored(b, chain, entries, sha)
  {
    hide Stored;
  }

  lemma PublishedIsUnchanged(b: Bucket, c: Bucket, chain: nat, ids: seq<string>, records: seq<Entry>,
                             entries: map<string, Entry>, sha: Hash)
    requires |ids| == |records| && Progress(b, chain, ids, records, entries, |ids|, sha) && Keeps(b, c)
    requires forall i, j | 0 <= i < j < |ids| :: ids[i] != ids[j]
    requires chain in c.manifests
    requires c.manifests[chain].datasets ==
      (if chain in b.manifests then b.manifests[chain].datasets else map[]) + entries
    ensures forall j | 0 <= j < |ids| ::
      Stored(c, chain, records[j], sha) && Unchanged(c.manifests, chain, ids[j], records[j])
  {
    forall j | 0 <= j < |ids|
      ensures Stored(c, chain, records[j], sha) && Unchanged(c.manifests, chain, ids[j], records[j])
    {
      StoredStays(b, c, chain, records[j], sha);
      if ids[j] in entries {
        var i :| 0 <= i < |ids| && ids[i] == ids[j] && entries[ids[j]] == records[i];
        assert i == j;
      }
    }
  }

  lemma NothingToPublish(b: Bucket, chain: nat, ids: seq<string>, records: seq<Entry>, k: nat, sha: Hash)
    requires k == |ids| == |records| && Progress(b, chain, ids, records, map[], k, sha)
    ensures forall j | 0 <= j < |ids| ::
      Stored(b, chain, records[j], sha) && Unchanged(b.manifests, chain, ids[j], records[j])
  {
  }

  // ----- what the plan means

  lemma NoWrites(b: Bucket, sha: Hash)
    ensures SafeRun(b, [], sha) && Run(b, []) == b
  {
  }

  lemma WantedIs(entry: Entry, prepared: map<string, Content>, sha: Hash, wanted: Record)
    requires Describes(entry, prepared, sha) && IsFlat(entry.artefacts, wanted)
    ensures forall key :: key in wanted <==> Listed(entry, key)
    ensures forall key | key in wanted :: key in prepared && wanted[key] == InfoOf(prepared[key], sha)
    ensures forall a, key | a in entry.artefacts && key in entry.artefacts[a] :: entry.artefacts[a][key] == wanted[key]
  {
    forall key ensures key in wanted <==> Listed(entry, key) {
    }
  }

  lemma DifferingShows(b: Bucket, chain: nat, entry: Entry, sha: Hash, wanted: Record, key: string)
    requires IsFlat(entry.artefacts, wanted)
    requires key in wanted && (chain, key) in b.objects && !Matches(b, chain, key, wanted[key], sha)
    ensures !NoneDiffers(b, chain, entry, sha)
  {
    var a :| a in entry.artefacts && key in entry.artefacts[a] && entry.artefacts[a][key] == wanted[key];
  }

  lemma NothingDiffers(b: Bucket, chain: nat, entry: Entry, sha: Hash, wanted: Record)
    requires forall a, key | a in entry.artefacts && key in entry.artefacts[a] ::
      key in wanted && entry.artefacts[a][key] == wanted[key]
    requires forall key | key in wanted && (chain, key) in b.objects :: Matches(b, chain, key, wanted[key], sha)
    ensures NoneDiffers(b, chain, entry, sha)
  {
  }

  lemma UploadedIsStored(before: Bucket, after: Bucket, chain: nat, entry: Entry, prepared: map<string, Content>,
                         sha: Hash, wanted: Record, send: seq<string>)
    requires Keeps(before, after)
    requires forall a, key | a in entry.artefacts && key in entry.artefacts[a] ::
      key in wanted && entry.artefacts[a][key] == wanted[key]
    requires forall key | key in wanted :: key in prepared && wanted[key] == InfoOf(prepared[key], sha)
    requires forall key | key in wanted && (chain, key) in before.objects ::
      Matches(before, chain, key, wanted[key], sha)
    requires forall key | key in wanted && (chain, key) !in before.objects :: key in send
    requires forall key | key in send ::
      key in prepared && (chain, key) in after.objects && after.objects[(chain, key)] == prepared[key]
    ensures Stored(after, chain, entry, sha)
  {
    forall a, key | a in entry.artefacts && key in entry.artefacts[a]
      ensures Matches(after, chain, key, entry.artefacts[a][key], sha)
    {
      if (chain, key) in before.objects {
        assert Matches(before, chain, key, wanted[key], sha);
      }
    }
  }

  /** No other chain's manifest changes, and of this chain's no other dataset. */
  ghost predicate OnlyTheseChange(before: map<nat, Manifest>, after: map<nat, Manifest>, chain: nat, ids: seq<string>) {
    && (forall n | n != chain :: n in before <==> n in after)
    && (forall n | n != chain && n in before :: after[n] == before[n])
    && (chain in before ==>
          && chain in after && after[chain].chain == before[chain].chain
          && (forall id | id !in ids :: id in before[chain].datasets <==> id in after[chain].datasets)
          && (forall id | id !in ids && id in before[chain].datasets ::
                after[chain].datasets[id] == before[chain].datasets[id]))
    && (chain in after && chain !in before ==> forall id | id in after[chain].datasets :: id in ids)
  }

  lemma NoneChange(manifests: map<nat, Manifest>, chain: nat, ids: seq<string>)
    ensures OnlyTheseChange(manifests, manifests, chain, ids)
  {
  }

  lemma OthersStay(b: Bucket, c: Bucket, chain: nat, ids: seq<string>, records: seq<Entry>,
                   entries: map<string, Entry>, sha: Hash)
    requires |ids| == |records| && Progress(b, chain, ids, records, entries, |ids|, sha)
    requires chain in c.manifests && c.manifests == b.manifests[chain := c.manifests[chain]]
    requires chain in b.manifests ==> c.manifests[chain].chain == b.manifests[chain].chain
    requires c.manifests[chain].datasets ==
      (if chain in b.manifests then b.manifests[chain].datasets else map[]) + entries
    ensures OnlyTheseChange(b.manifests, c.manifests, chain, ids)
  {
    hide Stored, Unchanged;
    assert forall id | id in entries :: id in ids;
  }

  /** The manifest has the new entry as it is, or the old one where that recorded the same. */
  ghost predicate IsPublished(before: map<nat, Manifest>, after: map<nat, Manifest>, chain: nat, id: string,
                              entry: Entry) {
    && chain in after && id in after[chain].datasets
    && (|| after[chain].datasets[id] == entry
        || (IsRecorded(before, chain, id, entry) && after[chain].datasets[id] == before[chain].datasets[id]))
  }

  lemma StillPublished(manifests: map<nat, Manifest>, chain: nat, ids: seq<string>, records: seq<Entry>)
    requires |ids| == |records| && forall j | 0 <= j < |ids| :: Unchanged(manifests, chain, ids[j], records[j])
    ensures forall j | 0 <= j < |ids| :: IsPublished(manifests, manifests, chain, ids[j], records[j])
  {
    forall j | 0 <= j < |ids| ensures IsPublished(manifests, manifests, chain, ids[j], records[j]) {
      UnchangedIs(manifests, chain, ids[j], records[j]);
    }
  }

  lemma TheseArePublished(b: Bucket, c: Bucket, chain: nat, ids: seq<string>, records: seq<Entry>,
                          entries: map<string, Entry>, sha: Hash)
    requires |ids| == |records| && Progress(b, chain, ids, records, entries, |ids|, sha)
    requires forall i, j | 0 <= i < j < |ids| :: ids[i] != ids[j]
    requires chain in c.manifests && c.manifests[chain].datasets ==
      (if chain in b.manifests then b.manifests[chain].datasets else map[]) + entries
    ensures forall j | 0 <= j < |ids| :: IsPublished(b.manifests, c.manifests, chain, ids[j], records[j])
  {
    hide Stored, IsRecorded;
    forall j | 0 <= j < |ids| ensures IsPublished(b.manifests, c.manifests, chain, ids[j], records[j]) {
      if ids[j] in entries {
        var i :| 0 <= i < |ids| && ids[i] == ids[j] && entries[ids[j]] == records[i];
        assert i == j;
      } else {
        UnchangedIs(b.manifests, chain, ids[j], records[j]);
      }
    }
  }

  // ----- which uploads succeed

  /** The two entries record no key differently. */
  ghost predicate SameInfo(x: Entry, y: Entry) {
    forall a, b, key | a in x.artefacts && key in x.artefacts[a] && b in y.artefacts && key in y.artefacts[b] ::
      x.artefacts[a][key] == y.artefacts[b][key]
  }

  /** None of the first `k` datasets has a key with another content in the bucket, or in a dataset
      before it. */
  ghost predicate FitTo(b: Bucket, chain: nat, records: seq<Entry>, k: nat, sha: Hash)
    requires k <= |records|
  {
    && (forall j | 0 <= j < k :: NoneDiffers(b, chain, records[j], sha))
    && forall i, j | 0 <= i < j < k :: SameInfo(records[i], records[j])
  }

  lemma FitToNone(b: Bucket, chain: nat, records: seq<Entry>, sha: Hash)
    ensures FitTo(b, chain, records, 0, sha)
  {
  }

  lemma FitsBefore(b: Bucket, chain: nat, records: seq<Entry>, k: nat, n: nat, sha: Hash)
    requires k <= n <= |records|
    ensures FitTo(b, chain, records, n, sha) ==> FitTo(b, chain, records, k, sha)
  {
    hide NoneDiffers, SameInfo;
  }

  /** Dataset `id` is recorded with the same source, the same artefacts and in each the same keys and hashes. */
  ghost predicate IsRecorded(manifests: map<nat, Manifest>, chain: nat, id: string, entry: Entry) {
    && chain in manifests && id in manifests[chain].datasets
    && var found := manifests[chain].datasets[id];
       && found.source == entry.source
       && (forall a :: a in found.artefacts <==> a in entry.artefacts)
       && forall a | a in entry.artefacts :: found.artefacts[a] == entry.artefacts[a]
  }

  lemma UnchangedIs(manifests: map<nat, Manifest>, chain: nat, id: string, entry: Entry)
    ensures Unchanged(manifests, chain, id, entry) <==> IsRecorded(manifests, chain, id, entry)
  {
  }

  /** The first `k` datasets are recorded with the same source and the same artefacts. */
  ghost predicate AllUnchanged(manifests: map<nat, Manifest>, chain: nat, ids: seq<string>, records: seq<Entry>, k: nat)
    requires k <= |ids| == |records|
  {
    forall j | 0 <= j < k :: IsRecorded(manifests, chain, ids[j], records[j])
  }

  lemma UnchangedNext(manifests: map<nat, Manifest>, chain: nat, ids: seq<string>, records: seq<Entry>, k: nat)
    requires k < |ids| == |records|
    ensures AllUnchanged(manifests, chain, ids, records, k + 1) <==>
      AllUnchanged(manifests, chain, ids, records, k) && Unchanged(manifests, chain, ids[k], records[k])
  {
    UnchangedIs(manifests, chain, ids[k], records[k]);
    hide IsRecorded, Unchanged;
  }

  lemma UnchangedAll(manifests: map<nat, Manifest>, chain: nat, ids: seq<string>, records: seq<Entry>, k: nat)
    requires k <= |ids| == |records|
    ensures AllUnchanged(manifests, chain, ids, records, k) <==>
      forall j | 0 <= j < k :: Unchanged(manifests, chain, ids[j], records[j])
  {
    hide IsRecorded, Unchanged;
    forall j | 0 <= j < k
      ensures Unchanged(manifests, chain, ids[j], records[j]) <==> IsRecorded(manifests, chain, ids[j], records[j])
    {
      UnchangedIs(manifests, chain, ids[j], records[j]);
    }
  }

  /** Every object that is new belongs to one of the first `k` datasets. */
  ghost predicate OnlyListed(before: Bucket, now: Bucket, chain: nat, records: seq<Entry>, k: nat)
    requires k <= |records|
  {
    forall o | o in now.objects && o !in before.objects ::
      o.0 == chain && exists j | 0 <= j < k :: Listed(records[j], o.1)
  }

  lemma OnlyListedNext(before: Bucket, now: Bucket, after: Bucket, chain: nat, records: seq<Entry>, k: nat)
    requires k < |records| && OnlyListed(before, now, chain, records, k)
    requires forall o | o in after.objects && o !in now.objects :: o.0 == chain && Listed(records[k], o.1)
    ensures OnlyListed(before, after, chain, records, k + 1)
  {
    hide Listed;
  }

  lemma NothingListed(b: Bucket, chain: nat, ids: seq<string>, records: seq<Entry>)
    requires |ids| == |records|
    ensures OnlyListed(b, b, chain, records, 0) && AllUnchanged(b.manifests, chain, ids, records, 0)
  {
  }

  /** The next dataset meets no other content exactly when it fits the bucket as it was and the
      datasets before it. */
  lemma FitsNext(before: Bucket, now: Bucket, chain: nat, ids: seq<string>, records: seq<Entry>,
                 entries: map<string, Entry>, k: nat, sha: Hash)
    requires k < |ids| == |records| && FitTo(before, chain, records, k, sha)
    requires Keeps(before, now) && Progress(now, chain, ids, records, entries, k, sha)
    requires OnlyListed(before, now, chain, records, k)
    ensures NoneDiffers(now, chain, records[k], sha) <==> FitTo(before, chain, records, k + 1, sha)
  {
    hide Unchanged, OnlyListed, Keeps, NoneDiffers, SameInfo, Stored;
    if NoneDiffers(now, chain, records[k], sha) {
      NoneDifferedBefore(before, now, chain, records[k], sha);
      forall j | 0 <= j < k ensures SameInfo(records[j], records[k]) {
        StoredAgree(now, chain, records[j], records[k], sha);
      }
    }
    if FitTo(before, chain, records, k + 1, sha) {
      forall j | 0 <= j < k ensures Stored(now, chain, records[j], sha) && SameInfo(records[j], records[k]) {}
      FittingDiffersNowhere(before, now, chain, records, k, sha);
    }
  }

  lemma FittingDiffersNowhere(before: Bucket, now: Bucket, chain: nat, records: seq<Entry>, k: nat, sha: Hash)
    requires k < |records| && Keeps(before, now) && OnlyListed(before, now, chain, records, k)
    requires NoneDiffers(before, chain, records[k], sha)
    requires forall j | 0 <= j < k :: Stored(now, chain, records[j], sha) && SameInfo(records[j], records[k])
    ensures NoneDiffers(now, chain, records[k], sha)
  {
    hide Stored, SameInfo;
    forall a, key | a in records[k].artefacts && key in records[k].artefacts[a] && (chain, key) in now.objects
      ensures Matches(now, chain, key, records[k].artefacts[a][key], sha)
    {
      if (chain, key) in before.objects {
        assert Matches(before, chain, key, records[k].artefacts[a][key], sha);
      } else {
        var j :| 0 <= j < k && Listed(records[j], key);
        AgreedMatches(now, chain, records[j], records[k], a, key, sha);
      }
    }
  }

  lemma AgreedMatches(b: Bucket, chain: nat, x: Entry, y: Entry, a: string, key: string, sha: Hash)
    requires Stored(b, chain, x, sha) && SameInfo(x, y) && Listed(x, key)
    requires a in y.artefacts && key in y.artefacts[a]
    ensures Matches(b, chain, key, y.artefacts[a][key], sha)
  {
    var c :| c in x.artefacts && key in x.artefacts[c];
    assert RecordStored(b, chain, x.artefacts[c], sha);
  }

  lemma NoneDifferedBefore(b: Bucket, c: Bucket, chain: nat, entry: Entry, sha: Hash)
    requires Keeps(b, c) && NoneDiffers(c, chain, entry, sha)
    ensures NoneDiffers(b, chain, entry, sha)
  {
  }

  lemma StoredAgree(b: Bucket, chain: nat, x: Entry, y: Entry, sha: Hash)
    requires Stored(b, chain, x, sha) && NoneDiffers(b, chain, y, sha)
    ensures SameInfo(x, y)
  {
    forall a, c, key | a in x.artefacts && key in x.artefacts[a] && c in y.artefacts && key in y.artefacts[c]
      ensures x.artefacts[a][key] == y.artefacts[c][key]
    {
      assert RecordStored(b, chain, x.artefacts[a], sha);
      assert Matches(b, chain, key, x.artefacts[a][key], sha);
    }
  }

  /** Datasets that the manifest records unchanged fit it and each other. */
  lemma SomethingChanged(b: Bucket, chain: nat, existing: Option<Manifest>, ids: seq<string>, records: seq<Entry>,
      sha: Hash)
    requires |ids| == |records| && Trusted(b, chain, existing, sha)
    requires existing == if chain in b.manifests then Some(b.manifests[chain]) else None
    requires !FitTo(b, chain, records, |ids|, sha)
    ensures !AllUnchanged(b.manifests, chain, ids, records, |ids|)
  {
    hide NoneDiffers, SameInfo, Unchanged, Trusted, Stored;
    if AllUnchanged(b.manifests, chain, ids, records, |ids|) {
      forall k | 0 <= k < |ids|
        ensures NoneDiffers(b, chain, records[k], sha) && Stored(b, chain, records[k], sha)
      {
        UnchangedIsStored(b, chain, existing, ids[k], records[k], sha);
      }
      forall i, j | 0 <= i < j < |ids| ensures SameInfo(records[i], records[j]) {
        StoredAgree(b, chain, records[i], records[j], sha);
      }
    }
  }
}
