/** Machine-level types and the catalog record shared by the rest of the model. */
module Common {

  /** An 8-bit unsigned value (BYTE). */
  type Byte = x: int | 0 <= x < 256

  /** DWORD is taken to be 32 bits wide; its header is not part of this model. */
  const DwordModulus: int := 0x1_0000_0000

  /** A 32-bit unsigned value (DWORD). */
  type Dword = x: int | 0 <= x < DwordModulus

  datatype Option<T> = None | Some(value: T)

  /**
   * Longest description a configuration record can set: the description buffer
   * (assumed 64 characters, its header is not part of this model) minus the terminator.
   */
  const DescriptionLimit: nat := 63

  /** One KNOWN_FLASH_TYPE: a chip signature with its label and size. */
  datatype Entry = Entry(manufacturerId: Byte, deviceId: Byte, description: seq<char>, sizeBytes: Dword)

  /** The all-zero entry that ends the in-use part of the catalog. */
  const Terminator: Entry := Entry(0, 0, [], 0)

  /** The (manufacturer, device) pair that identifies a chip. */
  datatype Key = Key(manufacturerId: Byte, deviceId: Byte)

  function KeyOf(e: Entry): Key
  {
    Key(e.manufacturerId, e.deviceId)
  }

  /** Some entry of `entries` carries key `k`. */
  predicate KeyIn(k: Key, entries: seq<Entry>)
  {
    exists i :: 0 <= i < |entries| && KeyOf(entries[i]) == k
  }
}
