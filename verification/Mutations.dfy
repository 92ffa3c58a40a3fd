/** One workspace mutation: what it changes, the six states of its record, and the record's place in the hash chain. */
module Mutations {
  import opened Wrappers

  datatype Leaf = Absent | File(data: string, executable: bool) | Link(text: string)

  /** SHA-256 over the canonical encoding of a path and its leaf, taken as injective: the encoded value itself. */
  datatype Fingerprint = Fingerprint(path: string, leaf: Leaf)

  datatype Kind = WriteFile | DeleteLeaf | WriteSymlink

  datatype MutationState = INTENT | SOURCE_QUARANTINED | SOURCE_VERIFIED | TARGET_INSTALLED | TARGET_VERIFIED | CLEANED

  const STATES := [INTENT, SOURCE_QUARANTINED, SOURCE_VERIFIED, TARGET_INSTALLED, TARGET_VERIFIED, CLEANED]

  /** The state's index in `stateOrder`. */
  function Rank(s: MutationState): (rank: nat)
    ensures rank < |STATES| && STATES[rank] == s
  {
    match s
    case INTENT => 0
    case SOURCE_QUARANTINED => 1
    case SOURCE_VERIFIED => 2
    case TARGET_INSTALLED => 3
    case TARGET_VERIFIED => 4
    case CLEANED => 5
  }

  function StateAt(rank: nat): (s: MutationState)
    requires rank < |STATES|
    ensures Rank(s) == rank
  {
    STATES[rank]
  }

  /** The immutable payload of a record. */
  datatype Intent = Intent(
    kind: Kind, path: string, sourceArtifact: string, targetArtifact: Option<string>,
    sourceFingerprint: Fingerprint, targetFingerprint: Fingerprint)

  /** A checksum over a record's content, taken as injective; `Genesis` stands for the first record's missing
      predecessor. */
  datatype Digest = Genesis | Digest(opId: string, ordinal: nat, state: MutationState, intent: Intent, previous: Digest)

  datatype Record = Record(
    opId: string, ordinal: nat, state: MutationState, intent: Intent, previous: Digest, checksum: Digest)

  function Seal(opId: string, ordinal: nat, state: MutationState, intent: Intent, previous: Digest): Record {
    Record(opId, ordinal, state, intent, previous, Digest(opId, ordinal, state, intent, previous))
  }

  /** `assertMutationRecord`: ordinals start at one, a file write names its target artifact, the checksum is right. */
  predicate WellSealed(r: Record) {
    && r.ordinal >= 1
    && (r.intent.kind == WriteFile ==> r.intent.targetArtifact.Some?)
    && r.checksum == Digest(r.opId, r.ordinal, r.state, r.intent, r.previous)
  }
}
