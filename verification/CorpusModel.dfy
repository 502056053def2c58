/** The hosted corpus of benchmark/scripts/corpus_bucket.py as a state machine: objects in
    a bucket, one manifest a chain version, and the writes a program makes, with a stop
    possible between any two of them. */
module CorpusModel {
  import opened Options

  type Content = string
  type Digest = string

  /** SHA-256. Nothing is assumed of it but that it depends on the content alone. */
  type Hash = Content -> Digest

  /** What a manifest records of one object. */
  datatype Info = Info(bytes: nat, sha256: Digest)

  /** The objects of one artefact, by key relative to the chain's folder. */
  type Record = map<string, Info>

  datatype Entry = Entry(source: string, built: string, carriedFrom: Option<nat>, artefacts: map<string, Record>)

  datatype Manifest = Manifest(chain: nat, datasets: map<string, Entry>)

  datatype Bucket = Bucket(objects: map<(nat, string), Content>, manifests: map<nat, Manifest>)

  datatype Write =
    | Put(chain: nat, key: string, content: Content)
    | CopyObject(from: nat, to: nat, key: string)
    | WriteManifest(chain: nat, manifest: Manifest)

  function InfoOf(content: Content, sha: Hash): Info {
    Info(|content|, sha(content))
  }

  /** The object is there with the recorded size and hash. */
  ghost predicate Matches(b: Bucket, chain: nat, key: string, info: Info, sha: Hash) {
    (chain, key) in b.objects && InfoOf(b.objects[(chain, key)], sha) == info
  }

  ghost predicate RecordStored(b: Bucket, chain: nat, record: Record, sha: Hash) {
    forall key | key in record :: Matches(b, chain, key, record[key], sha)
  }

  ghost predicate Stored(b: Bucket, chain: nat, entry: Entry, sha: Hash) {
    forall a | a in entry.artefacts :: RecordStored(b, chain, entry.artefacts[a], sha)
  }

  ghost predicate AllStored(b: Bucket, chain: nat, entries: map<string, Entry>, sha: Hash) {
    forall id | id in entries :: Stored(b, chain, entries[id], sha)
  }

  /** Every key that a manifest lists is in the bucket with the recorded bytes and hash. */
  ghost predicate Consistent(b: Bucket, sha: Hash) {
    forall chain | chain in b.manifests :: AllStored(b, chain, b.manifests[chain].datasets, sha)
  }

  // ----- writes

  /** What a write does. A copy of an object that is not there does nothing. */
  function Apply(b: Bucket, w: Write): Bucket {
    match w
    case Put(chain, key, content) => b.(objects := b.objects[(chain, key) := content])
    case CopyObject(from, to, key) =>
      if (from, key) in b.objects then b.(objects := b.objects[(to, key) := b.objects[(from, key)]]) else b
    case WriteManifest(chain, m) => b.(manifests := b.manifests[chain := m])
  }

  function Run(b: Bucket, ws: seq<Write>): Bucket
    decreases |ws|
  {
    if ws == [] then b else Run(Apply(b, ws[0]), ws[1..])
  }

  /** A write that replaces no object by another content and lists nothing that is not stored. */
  ghost predicate Safe(b: Bucket, w: Write, sha: Hash) {
    match w
    case Put(chain, key, content) => (chain, key) in b.objects ==> b.objects[(chain, key)] == content
    case CopyObject(from, to, key) =>
      (from, key) in b.objects && ((to, key) in b.objects ==> b.objects[(to, key)] == b.objects[(from, key)])
    case WriteManifest(chain, m) => m.chain == chain && AllStored(b, chain, m.datasets, sha)
  }

  ghost predicate SafeRun(b: Bucket, ws: seq<Write>, sha: Hash)
    decreases |ws|
  {
    ws == [] || (Safe(b, ws[0], sha) && SafeRun(Apply(b, ws[0]), ws[1..], sha))
  }

  /** No object of `b` is gone or changed in `c`. */
  ghost predicate Keeps(b: Bucket, c: Bucket) {
    forall o | o in b.objects :: o in c.objects && c.objects[o] == b.objects[o]
  }

  lemma StoredStays(b: Bucket, c: Bucket, chain: nat, entry: Entry, sha: Hash)
    requires Keeps(b, c) && Stored(b, chain, entry, sha)
    ensures Stored(c, chain, entry, sha)
  {
    forall a | a in entry.artefacts ensures RecordStored(c, chain, entry.artefacts[a], sha) {
      assert RecordStored(b, chain, entry.artefacts[a], sha);
    }
  }

  lemma AllStoredStays(b: Bucket, c: Bucket, chain: nat, entries: map<string, Entry>, sha: Hash)
    requires Keeps(b, c) && AllStored(b, chain, entries, sha)
    ensures AllStored(c, chain, entries, sha)
  {
    forall id | id in entries ensures Stored(c, chain, entries[id], sha) {
      StoredStays(b, c, chain, entries[id], sha);
    }
  }

  lemma SafeWriteKeeps(b: Bucket, w: Write, sha: Hash)
    requires Safe(b, w, sha)
    ensures Keeps(b, Apply(b, w))
    ensures Consistent(b, sha) ==> Consistent(Apply(b, w), sha)
  {
    var c := Apply(b, w);
    if Consistent(b, sha) {
      forall chain | chain in c.manifests ensures AllStored(c, chain, c.manifests[chain].datasets, sha) {
        if chain in b.manifests && c.manifests[chain] == b.manifests[chain] {
          assert AllStored(b, chain, b.manifests[chain].datasets, sha);
        }
        AllStoredStays(b, c, chain, c.manifests[chain].datasets, sha);
      }
    }
  }

  /** Wherever a run of safe writes is stopped, the manifests list only what the bucket
      holds, and no object has changed. */
  lemma {:induction false} StoppedRunIsConsistent(b: Bucket, ws: seq<Write>, sha: Hash, n: nat)
    requires SafeRun(b, ws, sha) && n <= |ws|
    ensures Keeps(b, Run(b, ws[..n]))
    ensures Consistent(b, sha) ==> Consistent(Run(b, ws[..n]), sha)
    decreases n
  {
    hide Safe, Consistent, Apply;
    if n > 0 {
      SafeWriteKeeps(b, ws[0], sha);
      StoppedRunIsConsistent(Apply(b, ws[0]), ws[1..], sha, n - 1);
      assert ws[..n][1..] == ws[1..][..n - 1];
    }
  }

  lemma {:induction false} RunConcat(b: Bucket, xs: seq<Write>, ys: seq<Write>, sha: Hash)
    ensures Run(b, xs + ys) == Run(Run(b, xs), ys)
    ensures SafeRun(b, xs, sha) && SafeRun(Run(b, xs), ys, sha) ==> SafeRun(b, xs + ys, sha)
    decreases |xs|
  {
    hide Safe, Apply;
    if xs == [] {
      assert xs + ys == ys;
    } else {
      assert (xs + ys)[1..] == xs[1..] + ys;
      RunConcat(Apply(b, xs[0]), xs[1..], ys, sha);
    }
  }

  lemma RunOne(b: Bucket, w: Write, sha: Hash)
    ensures Run(b, [w]) == Apply(b, w)
    ensures Safe(b, w, sha) ==> SafeRun(b, [w], sha)
  {
    hide Safe, Apply;
    assert [w][1..] == [];
    assert Run(Apply(b, w), []) == Apply(b, w);
  }

  /** One more write at the end of a run. */
  lemma RunAppend(b: Bucket, ws: seq<Write>, w: Write, sha: Hash)
    requires SafeRun(b, ws, sha) && Safe(Run(b, ws), w, sha)
    ensures SafeRun(b, ws + [w], sha) && Run(b, ws + [w]) == Apply(Run(b, ws), w)
  {
    hide Safe, Apply;
    RunOne(Run(b, ws), w, sha);
    RunConcat(b, ws, [w], sha);
  }

  lemma RunKeeps(b: Bucket, ws: seq<Write>, sha: Hash)
    requires SafeRun(b, ws, sha)
    ensures Keeps(b, Run(b, ws))
    ensures Consistent(b, sha) ==> Consistent(Run(b, ws), sha)
  {
    assert ws[..|ws|] == ws;
    StoppedRunIsConsistent(b, ws, sha, |ws|);
  }

  /** Forcing a differing content over a listed object breaks the promise, exactly when some
      record of that key does not describe the new content. */
  lemma ForcedPutBreaks(b: Bucket, chain: nat, key: string, content: Content, sha: Hash)
    requires Consistent(b, sha)
    ensures Consistent(Apply(b, Put(chain, key, content)), sha) <==>
      (chain in b.manifests ==>
        forall id, a | id in b.manifests[chain].datasets && a in b.manifests[chain].datasets[id].artefacts ::
          var record := b.manifests[chain].datasets[id].artefacts[a];
          key in record ==> record[key] == InfoOf(content, sha))
  {
    var c := Apply(b, Put(chain, key, content));
    if Consistent(c, sha) && chain in b.manifests {
      forall id, a | id in b.manifests[chain].datasets && a in b.manifests[chain].datasets[id].artefacts
        ensures var record := b.manifests[chain].datasets[id].artefacts[a];
          key in record ==> record[key] == InfoOf(content, sha)
      {
        var record := b.manifests[chain].datasets[id].artefacts[a];
        assert AllStored(c, chain, c.manifests[chain].datasets, sha);
        assert Stored(c, chain, c.manifests[chain].datasets[id], sha);
        assert RecordStored(c, chain, record, sha);
        if key in record { assert Matches(c, chain, key, record[key], sha); }
      }
    }
    if chain in b.manifests ==>
        forall id, a | id in b.manifests[chain].datasets && a in b.manifests[chain].datasets[id].artefacts ::
          var record := b.manifests[chain].datasets[id].artefacts[a];
          key in record ==> record[key] == InfoOf(content, sha)
    {
      forall n, id, a | n in c.manifests && id in c.manifests[n].datasets && a in c.manifests[n].datasets[id].artefacts
        ensures RecordStored(c, n, c.manifests[n].datasets[id].artefacts[a], sha)
      {
        assert AllStored(b, n, b.manifests[n].datasets, sha);
        assert Stored(b, n, b.manifests[n].datasets[id], sha);
        var record := b.manifests[n].datasets[id].artefacts[a];
        assert RecordStored(b, n, record, sha);
        forall k | k in record ensures Matches(c, n, k, record[k], sha) {
          assert Matches(b, n, k, record[k], sha);
        }
      }
    }
  }

  /** A chain with one recorded object. */
  function OneObject(content: Content, sha: Hash): Bucket {
    Bucket(map[(1, "key") := content],
           map[1 := Manifest(1, map["id" := Entry("", "", None,
             map["artefact" := map["key" := InfoOf(content, sha)]])])])
  }

  /** An input on which the force flag breaks the promise: a longer content over the recorded one. */
  lemma ForcedPutCanBreak(sha: Hash)
    ensures Consistent(OneObject("old", sha), sha)
    ensures !Consistent(Apply(OneObject("old", sha), Put(1, "key", "newer")), sha)
  {
    var b := OneObject("old", sha);
    ForcedPutBreaks(b, 1, "key", "newer", sha);
    var record := b.manifests[1].datasets["id"].artefacts["artefact"];
    assert record["key"].bytes == 3 && InfoOf("newer", sha).bytes == 5;
  }
}
