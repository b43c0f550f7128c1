/** Vocabulary shared by every module: options, results, peers, items and machine integers. */
module Common {
  datatype Option<+T> = None | Some(value: T)

  datatype Result<+T, +E> = Ok(value: T) | Err(error: E)

  datatype PeerSide = PeerA | PeerB
  {
    function Opposite(): PeerSide {
      if PeerA? then PeerB else PeerA
    }
  }

  datatype ItemType = RegularFile | Directory | Symlink | Unsupported

  datatype AnalysisOutcome = Included | Excluded | NotSupported

  datatype PlanActionKind =
    | CopyToDestination
    | OverwriteDestination
    | RemoveDestination
    | RemoveSourceAfterVerification

  /** What a user decides about a conflict between the peers. */
  datatype ConflictResolution = KeepPeerA | KeepPeerB | PreserveBoth | RenamePreserveForReview | Defer

  /** A relative path, kept as its text. */
  type Path = string

  /** A SHA-256 digest, kept as the number its bytes spell. */
  type Digest = nat

  const TWO_TO_THE_63: int := 0x8000_0000_0000_0000
  const TWO_TO_THE_64: int := 0x1_0000_0000_0000_0000

  type U64 = n: int | 0 <= n < TWO_TO_THE_64
  type I64 = n: int | -TWO_TO_THE_63 <= n < TWO_TO_THE_63

  /** Everything but the last element. */
  function Init<T>(s: seq<T>): seq<T>
    requires s != []
  {
    s[..|s| - 1]
  }

  function Last<T>(s: seq<T>): T
    requires s != []
  {
    s[|s| - 1]
  }

  function Digit(d: nat): (c: char)
    requires d < 10
    ensures '0' <= c <= '9' && c as int == '0' as int + d
  {
    ('0' as int + d) as char
  }

  /** A number in decimal, without leading zeros. */
  function Decimal(n: nat): (text: string)
    ensures text != [] && forall i :: 0 <= i < |text| ==> '0' <= text[i] <= '9'
  {
    if n < 10 then [Digit(n)] else Decimal(n / 10) + [Digit(n % 10)]
  }
}
