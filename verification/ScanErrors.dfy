/** Why a scan is refused (crates/rustev-contract/src/bounded.rs). */
module ScanErrors {
  import opened Wrappers
  import opened JsonGrammar

  datatype BoundError =
    | TooLarge(limit: nat, actual: nat)
    | TooDeep(limit: nat, offset: nat)
    | StringTooLong(limit: nat, offset: nat)
    | CollectionTooLong(limit: nat, offset: nat)
    | TooManyValues(limit: nat, offset: nat)
    | NumberTooLong(limit: nat, offset: nat)
    | FractionalNumber(offset: nat)
    | DuplicateKey(key: Text, offset: nat)
    | Syntax(offset: nat, expected: string)
    | InvalidUtf8(offset: nat)
    | TrailingData(offset: nat)
    | NoInput

  datatype Result<+T> = Ok(value: T) | Err(error: BoundError) {
    predicate IsFailure() { Err? }
    function PropagateFailure<U>(): Result<U>
      requires Err?
    { Err(error) }
    function Extract(): T
      requires Ok?
    { value }
  }

  /** `p` leaves the rule that `e` reports as it is in `limits`. */
  predicate Keeps(p: Policy, limits: ParseLimits, e: BoundError) {
    match e
    case TooLarge(_, _) => p.limits.maxBytes == limits.maxBytes
    case TooDeep(_, _) => p.limits.maxDepth == limits.maxDepth
    case StringTooLong(_, _) => p.limits.maxStringBytes == limits.maxStringBytes
    case CollectionTooLong(_, _) => p.limits.maxCollectionLen == limits.maxCollectionLen
    case TooManyValues(_, _) => p.limits.maxTotalValues == limits.maxTotalValues
    case NumberTooLong(_, _) => p.limits.maxNumberBytes == limits.maxNumberBytes
    case FractionalNumber(_) => !p.limits.allowFractionalNumbers
    case DuplicateKey(_, _) => p.distinctKeys
    case Syntax(_, _) => true
    case InvalidUtf8(_) => true
    case TrailingData(_) => true
    case NoInput => true
  }

  /** The place in the text that the error names, if it names one. */
  function Offset(e: BoundError): Option<nat> {
    match e
    case TooLarge(_, _) => None
    case TooDeep(_, k) => Some(k)
    case StringTooLong(_, k) => Some(k)
    case CollectionTooLong(_, k) => Some(k)
    case TooManyValues(_, k) => Some(k)
    case NumberTooLong(_, k) => Some(k)
    case FractionalNumber(k) => Some(k)
    case DuplicateKey(_, k) => Some(k)
    case Syntax(k, _) => Some(k)
    case InvalidUtf8(k) => Some(k)
    case TrailingData(k) => Some(k)
    case NoInput => None
  }

  // What a syntax error asks for, where the place it names is not the first byte that does not fit.

  const HEX_DIGIT := "hex digit"
  const LITERAL := "literal true, false or null"
  const PAIR := "valid surrogate pair"

  /** The error states its limit and a place in the text. */
  predicate Reports(limits: ParseLimits, b: Bytes, e: BoundError) {
    match e
    case TooLarge(limit, actual) => limit == limits.maxBytes < actual == |b|
    case TooDeep(limit, offset) => limit == limits.maxDepth && offset < |b|
    case StringTooLong(limit, offset) => limit == limits.maxStringBytes && offset < |b|
    case CollectionTooLong(limit, offset) => limit == limits.maxCollectionLen && offset <= |b|
    case TooManyValues(limit, offset) => limit == limits.maxTotalValues && offset < |b|
    case NumberTooLong(limit, offset) => limit == limits.maxNumberBytes && offset < |b|
    case FractionalNumber(offset) => !limits.allowFractionalNumbers && offset < |b|
    case DuplicateKey(key, offset) => |key| <= 64 && offset < |b|
    case Syntax(offset, _) => offset <= |b|
    case InvalidUtf8(offset) => offset < |b| && b[offset] >= 0x80
    case TrailingData(offset) => offset < |b| && !IsSpace(b[offset])
    case NoInput => IsGap(b)
  }
}
