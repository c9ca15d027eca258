/** What the unaligned loads and stores do inside a word: some bytes come from one word, the rest from another. */
module WordLanes {
  import opened Bytes

  /** LWL: the bytes of memory word `value` up to place `byte`, as the high bytes of the register's `old'` value. */
  function LoadLeft(old': Word, value: Word, byte: nat): Word
    requires byte < 4
  {
    match 3 - byte
    case 0 => value
    case 1 => (old' & 0xff) | (value << 8)
    case 2 => (old' & 0xffff) | (value << 16)
    case 3 => (old' & 0xffffff) | (value << 24)
  }

  /** LWR: the bytes of memory word `value` from place `byte` on, as the register's low bytes. */
  function LoadRight(old': Word, value: Word, byte: nat): Word
    requires byte < 4
  {
    match 3 - byte
    case 0 => (old' & 0xffff_ff00) | ((value >> 24) & 0xff)
    case 1 => (old' & 0xffff_0000) | ((value >> 16) & 0xffff)
    case 2 => (old' & 0xff00_0000) | ((value >> 8) & 0xff_ffff)
    case 3 => value
  }

  /** SWL: the register's high bytes into memory word `value`, up to place `byte`. */
  function StoreLeft(value: Word, register: Word, byte: nat): Word
    requires byte < 4
  {
    match 3 - byte
    case 0 => register
    case 1 => (value & 0xff00_0000) | ((register >> 8) & 0xff_ffff)
    case 2 => (value & 0xffff_0000) | ((register >> 16) & 0xffff)
    case 3 => (value & 0xffff_ff00) | ((register >> 24) & 0xff)
  }

  /** SWR: the register's low bytes into memory word `value`, from place `byte` on. */
  function StoreRight(value: Word, register: Word, byte: nat): Word
    requires byte < 4
  {
    match 3 - byte
    case 0 => (value & 0xff_ffff) | (register << 24)
    case 1 => (value & 0xffff) | (register << 16)
    case 2 => (value & 0xff) | (register << 8)
    case 3 => register
  }

  // Each mask and shift, byte by byte.

  lemma LowOver1(low: Word, high: Word)
    ensures var r := EncodeWord((low & 0xff) | (high << 8));
      r[0] == EncodeWord(low)[0] && r[1] == EncodeWord(high)[0] && r[2] == EncodeWord(high)[1] && r[3] == EncodeWord(high)[2]
  {
  }

  lemma LowOver2(low: Word, high: Word)
    ensures var r := EncodeWord((low & 0xffff) | (high << 16));
      r[0] == EncodeWord(low)[0] && r[1] == EncodeWord(low)[1] && r[2] == EncodeWord(high)[0] && r[3] == EncodeWord(high)[1]
  {
  }

  lemma LowOver3(low: Word, high: Word)
    ensures var r := EncodeWord((low & 0xffffff) | (high << 24));
      r[0] == EncodeWord(low)[0] && r[1] == EncodeWord(low)[1] && r[2] == EncodeWord(low)[2] && r[3] == EncodeWord(high)[0]
  {
  }

  lemma HighOver1(high: Word, low: Word)
    ensures var r := EncodeWord((high & 0xffff_ff00) | ((low >> 24) & 0xff));
      r[0] == EncodeWord(low)[3] && r[1] == EncodeWord(high)[1] && r[2] == EncodeWord(high)[2] && r[3] == EncodeWord(high)[3]
  {
  }

  lemma HighOver2(high: Word, low: Word)
    ensures var r := EncodeWord((high & 0xffff_0000) | ((low >> 16) & 0xffff));
      r[0] == EncodeWord(low)[2] && r[1] == EncodeWord(low)[3] && r[2] == EncodeWord(high)[2] && r[3] == EncodeWord(high)[3]
  {
  }

  lemma HighOver3(high: Word, low: Word)
    ensures var r := EncodeWord((high & 0xff00_0000) | ((low >> 8) & 0xff_ffff));
      r[0] == EncodeWord(low)[1] && r[1] == EncodeWord(low)[2] && r[2] == EncodeWord(low)[3] && r[3] == EncodeWord(high)[3]
  {
  }

  /** Byte by byte, LWL moves memory bytes 0..byte to places 3-byte..3. */
  lemma LoadLeftBytes(old': Word, value: Word, byte: nat)
    requires byte < 4
    ensures EncodeWord(LoadLeft(old', value, byte)) == EncodeWord(old')[..3 - byte] + EncodeWord(value)[..byte + 1]
  {
    LowOver1(old', value);
    LowOver2(old', value);
    LowOver3(old', value);
    hide EncodeWord;
    match 3 - byte
    case 0 =>
    case 1 =>
    case 2 =>
    case 3 =>
  }

  /** LWR moves memory bytes byte..3 to places 0..3-byte. */
  lemma LoadRightBytes(old': Word, value: Word, byte: nat)
    requires byte < 4
    ensures EncodeWord(LoadRight(old', value, byte)) == EncodeWord(value)[byte..] + EncodeWord(old')[4 - byte..]
  {
    HighOver1(old', value);
    HighOver2(old', value);
    HighOver3(old', value);
    hide EncodeWord;
    match 3 - byte
    case 0 =>
    case 1 =>
    case 2 =>
    case 3 =>
  }

  /** SWL moves register bytes 3-byte..3 to places 0..byte of the memory word. */
  lemma StoreLeftBytes(value: Word, register: Word, byte: nat)
    requires byte < 4
    ensures EncodeWord(StoreLeft(value, register, byte)) == EncodeWord(register)[3 - byte..] + EncodeWord(value)[byte + 1..]
  {
    HighOver1(value, register);
    HighOver2(value, register);
    HighOver3(value, register);
    hide EncodeWord;
    match 3 - byte
    case 0 =>
    case 1 =>
    case 2 =>
    case 3 =>
  }

  /** SWR moves register bytes 0..3-byte to places byte..3 of the memory word. */
  lemma StoreRightBytes(value: Word, register: Word, byte: nat)
    requires byte < 4
    ensures EncodeWord(StoreRight(value, register, byte)) == EncodeWord(value)[..byte] + EncodeWord(register)[..4 - byte]
  {
    LowOver1(value, register);
    LowOver2(value, register);
    LowOver3(value, register);
    hide EncodeWord;
    match 3 - byte
    case 0 =>
    case 1 =>
    case 2 =>
    case 3 =>
  }
}
