/** The gas a message costs before any execution. */
module IntrinsicGases {
  import opened Words

  newtype Byte = x: int | 0 <= x < 256

  const MAX_U64: nat := U64 - 1
  const TX_GAS: nat := 21000
  const TX_GAS_CONTRACT_CREATION: nat := 53000
  const TX_DATA_ZERO_GAS: nat := 4
  const TX_DATA_NON_ZERO_GAS_FRONTIER: nat := 68
  const TX_DATA_NON_ZERO_GAS_EIP2028: nat := 16
  const INIT_CODE_WORD_GAS: nat := 2
  const TX_ACCESS_LIST_ADDRESS_GAS: nat := 2400
  const TX_ACCESS_LIST_STORAGE_KEY_GAS: nat := 1900

  /** Message data; a slice has a 64-bit length. */
  type Data = s: seq<Byte> | |s| <= MAX_U64

  datatype GasResult = Gas(value: nat) | GasUintOverflow

  /** Storage keys listed under each address of an access list. */
  type AccessList = seq<nat>

  ghost function NonZeros(data: seq<Byte>): (n: nat)
    ensures n <= |data|
  {
    if data == [] then 0 else NonZeros(data[..|data| - 1]) + if data[|data| - 1] != 0 then 1 else 0
  }

  function StorageKeys(list: AccessList): nat {
    if list == [] then 0 else list[0] + StorageKeys(list[1..])
  }

  /** The unbounded cost of base, data and init code. */
  ghost function DataCost(data: seq<Byte>, create: bool, homestead: bool, eip2028: bool, eip3860: bool): nat {
    (if create && homestead then TX_GAS_CONTRACT_CREATION else TX_GAS)
    + NonZeros(data) * (if eip2028 then TX_DATA_NON_ZERO_GAS_EIP2028 else TX_DATA_NON_ZERO_GAS_FRONTIER)
    + (|data| - NonZeros(data)) * TX_DATA_ZERO_GAS
    + (if create && eip3860 then (|data| + 31) / 32 * INIT_CODE_WORD_GAS else 0)
  }

  function AccessCost(list: AccessList): nat {
    |list| * TX_ACCESS_LIST_ADDRESS_GAS + StorageKeys(list) * TX_ACCESS_LIST_STORAGE_KEY_GAS
  }

  /** Overflow exactly when base, data and init code exceed 64 bits; the access list wraps. */
  ghost function IntrinsicCost(data: seq<Byte>, list: AccessList, create: bool, homestead: bool, eip2028: bool, eip3860: bool): GasResult {
    var cost := DataCost(data, create, homestead, eip2028, eip3860);
    if cost > MAX_U64 then GasUintOverflow else Gas((cost + AccessCost(list)) % U64)
  }

  /** The number of 32-byte words that hold `size` bytes, in 64-bit arithmetic. */
  function ToWordSize(size: nat): (words: nat)
    requires size <= MAX_U64
    ensures size <= words * 32 < size + 32
  {
    if size > MAX_U64 - 31 then MAX_U64 / 32 + 1 else (size + 31) / 32
  }

  /** Division by a unit price detects exactly the products that would not fit. */
  lemma RoomFor(gas: nat, price: nat, count: nat)
    requires gas <= MAX_U64 && price > 0
    ensures (MAX_U64 - gas) / price < count <==> gas + count * price > MAX_U64
  {
    var room := MAX_U64 - gas;
    var q := room / price;
    assert q * price <= room < (q + 1) * price;
    if q < count {
      MulMono(price, q + 1, count);
    } else {
      MulMono(price, count, q);
    }
  }

  method CountNonZeros(data: seq<Byte>) returns (nz: nat)
    ensures nz == NonZeros(data)
  {
    nz := 0;
    for i := 0 to |data|
      invariant nz == NonZeros(data[..i])
    {
      assert data[..i + 1][..i] == data[..i];
      if data[i] != 0 {
        nz := nz + 1;
      }
    }
    assert data[..|data|] == data;
  }

  /** Adds `count` times `price`, or reports that the sum does not fit. */
  method AddFor(gas: nat, price: nat, count: nat) returns (r: GasResult)
    requires gas <= MAX_U64 && price > 0
    ensures r == if gas + count * price > MAX_U64 then GasUintOverflow else Gas(gas + count * price)
  {
    RoomFor(gas, price, count);
    if (MAX_U64 - gas) / price < count {
      return GasUintOverflow;
    }
    r := Gas(gas + count * price);
  }

  method AddAccessList(gas: nat, list: AccessList) returns (total: nat)
    ensures total == (gas + AccessCost(list)) % U64
  {
    total := (gas + |list| * TX_ACCESS_LIST_ADDRESS_GAS % U64) % U64;
    total := (total + StorageKeys(list) * TX_ACCESS_LIST_STORAGE_KEY_GAS % U64) % U64;
    WrappedSum(gas, |list| * TX_ACCESS_LIST_ADDRESS_GAS, StorageKeys(list) * TX_ACCESS_LIST_STORAGE_KEY_GAS);
  }

  method IntrinsicGas(data: Data, list: AccessList, create: bool, homestead: bool, eip2028: bool, eip3860: bool)
    returns (r: GasResult)
    ensures r == IntrinsicCost(data, list, create, homestead, eip2028, eip3860)
  {
    r := Gas(if create && homestead then TX_GAS_CONTRACT_CREATION else TX_GAS);
    if |data| > 0 {
      var nz := CountNonZeros(data);
      r := AddFor(r.value, if eip2028 then TX_DATA_NON_ZERO_GAS_EIP2028 else TX_DATA_NON_ZERO_GAS_FRONTIER, nz);
      if r.GasUintOverflow? {
        return;
      }
      r := AddFor(r.value, TX_DATA_ZERO_GAS, |data| - nz);
      if r.GasUintOverflow? {
        return;
      }
      if create && eip3860 {
        var words := ToWordSize(|data|);
        assert words == (|data| + 31) / 32;
        r := AddFor(r.value, INIT_CODE_WORD_GAS, words);
        if r.GasUintOverflow? {
          return;
        }
      }
    }
    var gas := AddAccessList(r.value, list);
    r := Gas(gas);
  }

  lemma WrappedSum(a: nat, b: nat, c: nat)
    ensures ((a + b % U64) % U64 + c % U64) % U64 == (a + (b + c)) % U64
  {
  }

  // ---- What the cost is made of ----

  ghost function NonZeroAt(data: seq<Byte>): set<nat> {
    set i: nat | i < |data| && data[i] != 0
  }

  /** The counted bytes are exactly those that are not zero. */
  lemma {:induction false} NonZerosCounted(data: seq<Byte>)
    ensures NonZeros(data) == |NonZeroAt(data)|
  {
    if data == [] {
      assert NonZeroAt(data) == {};
    } else {
      var n := |data| - 1;
      NonZerosCounted(data[..n]);
      assert NonZeroAt(data) == NonZeroAt(data[..n]) + if data[n] != 0 then {n} else {};
    }
  }

  lemma {:induction false} KeysTogether(a: AccessList, b: AccessList)
    ensures StorageKeys(a + b) == StorageKeys(a) + StorageKeys(b) && StorageKeys([]) == 0
  {
    if a == [] {
      assert a + b == b;
    } else {
      assert (a + b)[1..] == a[1..] + b;
      KeysTogether(a[1..], b);
    }
  }

  /** One more address with `keys` storage keys costs 2400 and 1900 a key. */
  lemma ListedAddress(list: AccessList, keys: nat)
    ensures AccessCost(list + [keys]) == AccessCost(list) + 2400 + 1900 * keys && AccessCost([]) == 0
  {
    KeysTogether(list, [keys]);
    assert StorageKeys([keys]) == keys;
  }

  /** The intrinsic cost in the figures of the protocol, `words` being the 32-byte words that hold the data. */
  lemma CostInFigures(data: seq<Byte>, create: bool, homestead: bool, eip2028: bool, eip3860: bool, words: nat)
    requires |data| <= 32 * words < |data| + 32
    ensures var nonZero := |NonZeroAt(data)|;
            && nonZero <= |data|
            && DataCost(data, create, homestead, eip2028, eip3860) ==
               (if create && homestead then 53000 else 21000) + (if eip2028 then 16 else 68) * nonZero + 4 * (|data| - nonZero)
               + (if create && eip3860 then 2 * words else 0)
  {
    NonZerosCounted(data);
    assert words == (|data| + 31) / 32;
  }
}
