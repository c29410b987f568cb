/** The C integer types of the x86-64 Linux kernel (LP64) as ranges of mathematical integers. */
module CTypes {

  /** `unsigned char` */
  type u8 = x: int | 0 <= x < 0x100

  /** `unsigned short` */
  type u16 = x: int | 0 <= x < 0x1_0000

  /** `int` */
  type i32 = x: int | -0x8000_0000 <= x < 0x8000_0000

  /** `unsigned long` */
  type u64 = x: int | 0 <= x < 0x1_0000_0000_0000_0000

  /** `long` */
  type i64 = x: int | -0x8000_0000_0000_0000 <= x < 0x8000_0000_0000_0000
}
