/** The ancestry of an artifact (`src/v2/artifact.rs`) and the closure of an attestation (`src/v2/verification.rs`). */
module Provenance {
  import opened Wrappers
  import opened Verifications
  import opened Digraphs

  /** The fields of an artifact that its provenance rests on. */
  datatype Artifact = Artifact(artifactId: string, derivedFrom: seq<string>)

  datatype ProvenanceError = CycleAt(id: string) | UnknownId(id: string)

  function OfWalk(e: WalkError): ProvenanceError {
    match e
    case Cycle(at) => CycleAt(at)
    case Unknown(u) => UnknownId(u)
  }

  // -------------------------------------------------------------- artifacts

  /** The first artifact with an id, as a search from the front finds it. */
  function FindArtifact(artifacts: seq<Artifact>, id: string): (r: Option<Artifact>)
    ensures r.Some? ==> r.value in artifacts && r.value.artifactId == id
    ensures r.None? ==> forall a | a in artifacts :: a.artifactId != id
  {
    if artifacts == [] then None
    else if artifacts[0].artifactId == id then Some(artifacts[0])
    else FindArtifact(artifacts[1..], id)
  }

  /** Of several artifacts with one id the first counts, in searches and in the graph alike. */
  lemma {:induction false} FirstArtifactCounts(artifacts: seq<Artifact>, i: nat)
    requires i < |artifacts| && forall j | 0 <= j < i :: artifacts[j].artifactId != artifacts[i].artifactId
    ensures var id := artifacts[i].artifactId;
            FindArtifact(artifacts, id) == Some(artifacts[i])
            && id in Derivations(artifacts) && Derivations(artifacts)[id] == artifacts[i].derivedFrom
  {
    if i > 0 {
      FirstArtifactCounts(artifacts[1..], i - 1);
    }
  }

  function Derivations(artifacts: seq<Artifact>): (g: Graph)
    ensures forall id :: id in g <==> FindArtifact(artifacts, id).Some?
    ensures forall id | id in g :: g[id] == FindArtifact(artifacts, id).value.derivedFrom
  {
    var ids := set a | a in artifacts :: a.artifactId;
    map id | id in ids && FindArtifact(artifacts, id).Some? :: FindArtifact(artifacts, id).value.derivedFrom
  }

  /** The artifacts with the ids of a list, in its order. */
  ghost predicate Found(artifacts: seq<Artifact>, ids: seq<string>, r: seq<Artifact>) {
    |r| == |ids| && forall i | 0 <= i < |ids| :: FindArtifact(artifacts, ids[i]) == Some(r[i])
  }

  /**
   The ancestry succeeds exactly when the artifact is known and nothing it derives from, over
   any number of steps, is unknown or on a cycle; it then lists exactly those, once each, each
   after everything it derives from. A reported artifact is on a cycle, or unknown, above it.
   */
  method Ancestry(artifacts: seq<Artifact>, id: string) returns (r: Result<seq<Artifact>, ProvenanceError>)
    ensures r.Success? <==> id in Derivations(artifacts) && SoundAbove(Derivations(artifacts), id)
    ensures r.Success? ==>
              exists ids :: ListsAbove(Derivations(artifacts), id, ids) && Found(artifacts, ids, r.value) && id !in ids
    ensures r.Failure? && id !in Derivations(artifacts) ==> r.error == UnknownId(id)
    ensures r.Failure? && id in Derivations(artifacts) ==>
              exists e :: r.error == OfWalk(e) && Faults(Derivations(artifacts), id, e)
  {
    hide SoundAbove, ListsAbove, Faults;
    var g := Derivations(artifacts);
    var start := FindArtifact(artifacts, id);
    if start.None? {
      return Failure(UnknownId(id));
    }
    var listed := Closure(g, id, Some(id));
    if listed.Failure? {
      return Failure(OfWalk(listed.error));
    }
    var ids := listed.value;
    NotAboveItself(g, id, ids);
    var found: seq<Artifact> := [];
    for i := 0 to |ids|
      invariant Found(artifacts, ids[..i], found)
    {
      ListedKnown(g, id, ids, i);
      found := found + [FindArtifact(artifacts, ids[i]).value];
      assert ids[..i + 1] == ids[..i] + [ids[i]];
    }
    assert ids[..|ids|] == ids;
    return Success(found);
  }

  lemma NotAboveItself(g: Graph, id: string, ids: seq<string>)
    requires ListsAbove(g, id, ids) && SoundAbove(g, id)
    ensures id !in ids
  {
  }

  lemma ListedKnown(g: Graph, id: string, ids: seq<string>, i: nat)
    requires ListsAbove(g, id, ids) && i < |ids|
    ensures ids[i] in g
  {
  }

  // ---------------------------------------------------------- attestations

  function FindRecord(records: seq<Verification>, id: string): (r: Option<Verification>)
    ensures r.Some? ==> r.value in records && r.value.verificationId == id
    ensures r.None? ==> forall v | v in records :: v.verificationId != id
  {
    if records == [] then None
    else if records[0].verificationId == id then Some(records[0])
    else FindRecord(records[1..], id)
  }

  /** Of several records with one id the first counts. */
  lemma {:induction false} FirstRecordCounts(records: seq<Verification>, i: nat)
    requires i < |records| && forall j | 0 <= j < i :: records[j].verificationId != records[i].verificationId
    ensures var id := records[i].verificationId;
            FindRecord(records, id) == Some(records[i])
            && id in Attestations(records) && Attestations(records)[id] == records[i].attests
  {
    if i > 0 {
      FirstRecordCounts(records[1..], i - 1);
    }
  }

  function Attestations(records: seq<Verification>): (g: Graph)
    ensures forall id :: id in g <==> FindRecord(records, id).Some?
    ensures forall id | id in g :: g[id] == FindRecord(records, id).value.attests
  {
    var ids := set v | v in records :: v.verificationId;
    map id | id in ids && FindRecord(records, id).Some? :: FindRecord(records, id).value.attests
  }

  ghost predicate FoundRecords(records: seq<Verification>, ids: seq<string>, r: seq<Verification>) {
    |r| == |ids| && forall i | 0 <= i < |ids| :: FindRecord(records, ids[i]) == Some(r[i])
  }

  /** The same of attestations, whose walk is not told where it started. */
  method AttestationClosure(records: seq<Verification>, id: string) returns (r: Result<seq<Verification>, ProvenanceError>)
    ensures r.Success? <==> id in Attestations(records) && SoundAbove(Attestations(records), id)
    ensures r.Success? ==>
              exists ids :: ListsAbove(Attestations(records), id, ids) && FoundRecords(records, ids, r.value) && id !in ids
    ensures r.Failure? && id !in Attestations(records) ==> r.error == UnknownId(id)
    ensures r.Failure? && id in Attestations(records) ==>
              exists e :: r.error == OfWalk(e) && Faults(Attestations(records), id, e)
  {
    hide SoundAbove, ListsAbove, Faults;
    var g := Attestations(records);
    var start := FindRecord(records, id);
    if start.None? {
      return Failure(UnknownId(id));
    }
    var listed := Closure(g, id, None);
    if listed.Failure? {
      return Failure(OfWalk(listed.error));
    }
    var ids := listed.value;
    NotAboveItself(g, id, ids);
    var found: seq<Verification> := [];
    for i := 0 to |ids|
      invariant FoundRecords(records, ids[..i], found)
    {
      ListedKnown(g, id, ids, i);
      found := found + [FindRecord(records, ids[i]).value];
      assert ids[..i + 1] == ids[..i] + [ids[i]];
    }
    assert ids[..|ids|] == ids;
    return Success(found);
  }
}
