/** Types shared by every component: optional and fallible values, interface kinds, identifiers. */
module Core {

  datatype Option<+T> = None | Some(value: T)

  datatype Result<+T, +E> = Ok(value: T) | Err(error: E)

  datatype InterfaceKind = Gpio | Pwm | I2c | Spi | Uart | Usb

  type DeviceId = string

  // Fixed-width unsigned integers of the source.
  type U8 = n: nat | n < 0x100
  type U16 = n: nat | n < 0x1_0000
  type U32 = n: nat | n < 0x1_0000_0000
  type U64 = n: nat | n < 0x1_0000_0000_0000_0000

  const USIZE_MAX: nat := 0xFFFF_FFFF_FFFF_FFFF
  type Usize = n: nat | n <= USIZE_MAX

  /** `usize::saturating_add`. */
  function SaturatingAdd(a: Usize, b: nat): (r: Usize)
    ensures r == a + b || (r == USIZE_MAX && a + b > USIZE_MAX)
  {
    if a + b <= USIZE_MAX then a + b else USIZE_MAX
  }
}
