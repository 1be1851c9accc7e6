/**
  The device modes of DeviceDetector::DeviceMode.

  The header declares Unknown = 0 … Recovery = 5. Fastbootd is used by the
  restart tool and by every UI switch but is not declared; the model gives it
  the next free code, 6. DeviceInfo::toString still treats code 3 as a
  Fastboot-family mode, although 3 is EDL 9008 (see the DeviceRecord module).
 */
module Modes {

  datatype DeviceMode = Unknown | Adb | Fastboot | Edl9008 | MtkDa | Recovery | Fastbootd
  {
    /** The integer the source stores in DeviceInfo::mode. */
    function Code(): (c: int)
      ensures 0 <= c <= 6
    {
      match this
      case Unknown => 0
      case Adb => 1
      case Fastboot => 2
      case Edl9008 => 3
      case MtkDa => 4
      case Recovery => 5
      case Fastbootd => 6
    }
  }

  /**
    The mode a stored integer stands for, as the consumers' switches read it:
    a code no enumerator has falls into their `default` branch, like Unknown.
   */
  function ModeOfCode(c: int): (m: DeviceMode)
    ensures 0 <= c <= 6 ==> m.Code() == c
    ensures !(0 <= c <= 6) ==> m == Unknown
  {
    if c == 1 then Adb
    else if c == 2 then Fastboot
    else if c == 3 then Edl9008
    else if c == 4 then MtkDa
    else if c == 5 then Recovery
    else if c == 6 then Fastbootd
    else Unknown
  }

  /** Storing a mode as its code and reading it back loses nothing. */
  lemma CodeRoundTrip(m: DeviceMode)
    ensures ModeOfCode(m.Code()) == m
  {
  }

  /** No two modes share a code. */
  lemma CodeInjective(m1: DeviceMode, m2: DeviceMode)
    requires m1.Code() == m2.Code()
    ensures m1 == m2
  {
    CodeRoundTrip(m1);
    CodeRoundTrip(m2);
  }
}
