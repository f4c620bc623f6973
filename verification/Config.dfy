/** The configuration and monitor records of `config.h`, their limits, and the
    environment-facing vocabulary the other modules share. */
module Config {
  import opened Words
  import opened CStrings

  const MAX_SERVERS := 32
  const MAX_SCHEDULES := 16
  const NAME_LEN := 32

  datatype Option<+T> = None | Some(value: T)

  type NameBuf = b: seq<char> | |b| == NAME_LEN witness Zeros(NAME_LEN)
  type Mac = m: seq<Byte> | |m| == 6 witness [0, 0, 0, 0, 0, 0]

  /** `server_entry_t`; `ip == 0` means no address is set. */
  datatype Server = Server(name: NameBuf, mac: Mac, active: bool, ip: Word)

  /** `server_monitor_t` */
  datatype Monitor = Monitor(
    up: bool, wolActive: bool, wolCount: Byte, pingCount: Byte, pingPending: bool,
    lastPing: Word, lastHealth: Word, pingSeq: Half)

  /** `schedule_entry_t`; bit 0 of the day mask is Sunday, a negative target means all servers. */
  datatype Schedule = Schedule(dayMask: bv8, hour: Byte, minute: Byte, target: Int8)

  /** The C expression `1 << day` on a day mask. */
  function DayBit(day: nat): bv8
    requires day < 7
  {
    if day == 0 then 1 else if day == 1 then 2 else if day == 2 then 4 else if day == 3 then 8
    else if day == 4 then 16 else if day == 5 then 32 else 64
  }

  predicate HasDay(mask: bv8, day: nat)
    requires day < 7
  {
    mask & DayBit(day) != 0
  }

  const BLANK_NAME: NameBuf := Zeros(NAME_LEN)
  const ZERO_MAC: Mac := [0, 0, 0, 0, 0, 0]
  const ZERO_SERVER := Server(BLANK_NAME, ZERO_MAC, false, 0)
  const ZERO_MONITOR := Monitor(false, false, 0, 0, false, 0, 0, 0)
  const ZERO_SCHEDULE := Schedule(0, 0, 0, 0)

  function NameOf(s: Server): string {
    CStr(s.name)
  }

  /** The buffer of a name stored into a zeroed slot. */
  function NameBuffer(name: string): NameBuf {
    Copied(BLANK_NAME, name, NAME_LEN - 1)
  }

  /** `active && strcmp(name, ...) == 0`, the test every lookup by name uses. */
  predicate Named(s: Server, name: string) {
    s.active && NameOf(s) == name
  }

  /** What `parse_mac` does to its output array: nothing, a prefix of the octets
      before one above 255 is met, or all six. */
  datatype MacScan = NoMatch | TooLarge(prefix: seq<Byte>) | Octets(mac: Mac) {
    predicate Ok() {
      Octets?
    }

    predicate WellFormed() {
      TooLarge? ==> |prefix| < 6
    }

    function WriteTo(was: Mac): Mac
      requires WellFormed()
    {
      match this
      case NoMatch => was
      case TooLarge(p) => p + was[|p|..]
      case Octets(m) => m
    }
  }
}
