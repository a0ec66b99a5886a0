/** Failure-compatible results and the error vocabulary of the reader. */
module Results {

  datatype Option<+T> = None | Some(value: T)

  /** The fields a range error can name. */
  datatype Field =
    | GeometryField
    | BlockField
    | ChunkIndexField
    | CibIndexField
    | ChunkInfoField
    | SizeField
    | PhysBlockField
    | BlockSizeField
    | LengthField
    | LengthOneByteField
    | LengthTwoByteField
    | LengthFormField
    | ValueEndField
    | WrappedKeyLenField
    | IterationsLenField
    | SaltLenField
    | WrappedKeyMissingField
    | IterationsMissingField
    | SaltMissingField
    | NestedObjectField
    | NestedKeyField
    | UnlockRecordsLenField
    | UnlockRecordsMissingField
    | VolumeKeyMissingField

  /** Why a compressed payload is refused. */
  datatype Refusal =
    | ReadOutOfBounds
    | HeaderTooSmall
    | EndGoesBackward
    | ChunkOutOfBounds
    | LengthMismatch
    | HeaderTooShort
    | BadMagic
    | DedupStore
    | UnknownType
    | NoPublicFormat
    | NoFork
    | UnroutedAlgorithm

  /** The error variants the modelled operations can return; each carries the values the reader reports. */
  datatype Error =
    | Io
    | CycleGuard(cap: nat)
    | ChecksumMismatch(block: nat, stored: nat, computed: nat)
    | OmapUnresolved(oid: nat, xid: nat)
    | UnexpectedObjectType(expected: nat, found: nat)
    | FieldOutOfRange(field: Field, value: nat, cap: nat)
    | UnsupportedSpacemanCab(count: nat)
    | NoValidSuperblock(checked: nat, lastMagic: nat)
    | CheckpointTreeUnsupported
    | Decmpfs(reason: Refusal)

  datatype Result<+T> = Ok(value: T) | Err(error: Error) {
    predicate IsFailure() {
      Err?
    }
    function PropagateFailure<U>(): Result<U>
      requires Err?
    {
      Err(error)
    }
    function Extract(): T
      requires Ok?
    {
      value
    }
  }
}
