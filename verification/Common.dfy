/** Machine integers, origins and results shared by the four pallets. */
module Common {

  type u8 = x: int | 0 <= x < 0x100
  type u32 = x: int | 0 <= x < 0x1_0000_0000
  type u64 = x: int | 0 <= x < 0x1_0000_0000_0000_0000

  const U32_MAX: u32 := 0xFFFF_FFFF
  const U64_MAX: u64 := 0xFFFF_FFFF_FFFF_FFFF

  /** Accounts are opaque identifiers that can be compared. */
  type AccountId = nat

  type ClubId = u32
  type Moment = u64
  type Bytes = seq<u8>

  /** A fixed-size content hash, kept opaque. */
  type Hash = nat

  datatype Option<+T> = None | Some(value: T)

  /** The caller of a dispatchable. An `EnsureOrigin` bound is an arbitrary predicate on it. */
  datatype Origin = Root | Unsigned | Signed(who: AccountId)

  function Min(x: int, y: int): int {
    if x <= y then x else y
  }

  // `saturating_add`, `saturating_sub` and `saturating_mul`.
  function SatAdd32(x: u32, y: u32): u32 {
    Min(x + y, U32_MAX)
  }

  function SatSub32(x: u32, y: u32): u32 {
    if x <= y then 0 else x - y
  }

  function SatMul32(x: u32, y: u32): u32 {
    Min(x * y, U32_MAX)
  }

  function SatAdd64(x: u64, y: u64): u64 {
    Min(x + y, U64_MAX)
  }

  function Front<T>(s: seq<T>): seq<T>
    requires s != []
  {
    s[..|s| - 1]
  }

  function Last<T>(s: seq<T>): T
    requires s != []
  {
    s[|s| - 1]
  }

  ghost predicate Distinct<T>(s: seq<T>) {
    forall i, j :: 0 <= i < j < |s| ==> s[i] != s[j]
  }
}
