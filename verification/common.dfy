/** Machine types and the revert convention shared by every component of the proxy. */
module Common {

  /** 2^128: one past the largest `uint128`. */
  const U128: nat := 0x1_0000_0000_0000_0000_0000_0000_0000_0000
  /** 2^160: one past the largest `address`. */
  const U160: nat := 0x1_0000_0000_0000_0000_0000_0000_0000_0000_0000_0000
  /** 2^256: one past the largest `uint256`. */
  const U256: nat := 0x1_0000_0000_0000_0000_0000_0000_0000_0000_0000_0000_0000_0000_0000_0000_0000_0000

  type Uint256 = x: int | 0 <= x < U256

  /** A `bytes32` namespace key; keys are opaque, so one number per key is enough. */
  type Key = Uint256

  /** An account or contract address; 0 is the null address. */
  type Address = a: int | 0 <= a < U160

  const ZeroAddress: Address := 0

  /** The raw bytes of an inbound call (selector followed by the encoded arguments). */
  type Calldata = seq<bv8>

  /** A 4-byte function selector. */
  type Bytes4 = s: seq<bv8> | |s| == 4 witness [0, 0, 0, 0]

  /** How an external call ends: normally, or reverted with a reason string. */
  datatype Status = Ok | Reverted(reason: string)

  /** A state transition that either yields the new state or reverts with a reason. */
  datatype Result<T> = Success(value: T) | Failure(reason: string) {
    function ToStatus(): Status {
      if Success? then Ok else Reverted(reason)
    }
  }

  /** The state a transition leaves behind: its new state on success, the old one on a revert. */
  function Commit<T>(prior: T, r: Result<T>): T {
    if r.Success? then r.value else prior
  }

  datatype Option<T> = None | Some(value: T)
}
