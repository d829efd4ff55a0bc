/** The captured force-feedback effect and the machine arithmetic the daemon
    applies to it. Intensities are exact reals; integers keep their width. */
module Effects {

  const U32_MAX: nat := 0xffff_ffff

  type Byte = x: int | 0 <= x < 0x100
  type Word = x: int | 0 <= x < 0x1_0000
  type Short = x: int | -0x8000 <= x < 0x8000
  type DWord = x: int | 0 <= x < 0x1_0000_0000

  /** The seven words captured from the kernel's effect union. */
  type Payload = u: seq<Word> | |u| == 7 witness [0, 0, 0, 0, 0, 0, 0]

  datatype FfEffect = FfEffect(
    kind: Word,
    id: Short,
    direction: Word,
    triggerButton: Word,
    triggerInterval: Word,
    replayLength: Word,
    replayDelay: Word,
    u: Payload)

  datatype Envelope = Envelope(attackLength: Word, attackLevel: Word, fadeLength: Word, fadeLevel: Word)

  datatype Waveform = Square | Triangle | Sine | SawUp | SawDown | Custom

  /** The name of an evdev device. */
  type DeviceId = string

  datatype Option<+T> = None | Some(value: T)

  const FF_RUMBLE: Word := 0x50
  const FF_PERIODIC: Word := 0x51
  const FF_CONSTANT: Word := 0x52
  const FF_RAMP: Word := 0x57

  function WaveformFrom(v: Word): Option<Waveform> {
    match v
    case 0x58 => Some(Square)
    case 0x59 => Some(Triangle)
    case 0x5a => Some(Sine)
    case 0x5b => Some(SawUp)
    case 0x5c => Some(SawDown)
    case 0x5d => Some(Custom)
    case _ => None
  }

  /** Two's complement: the low sixteen bits of `x`, read as a signed word. */
  function Wrap16(x: int): Short {
    (x + 0x8000) % 0x1_0000 - 0x8000
  }

  /** `i16::abs` of a release build: the least value is its own absolute value. */
  function Abs16(x: Short): Short {
    if x == -0x8000 then x else if x < 0 then -x else x
  }

  /** It keeps the size of every word, and the sign of none but the least. */
  lemma Abs16Exact(x: Short)
    ensures var a: int, w: int := Abs16(x), x; a == w || a == -w
    ensures Abs16(x) >= 0 <==> x != -0x8000
  {
  }

  /** The one signed word congruent to `x`. */
  lemma Wrap16Exact(x: int, r: Short)
    ensures r == Wrap16(x) <==> (x - r) % 0x1_0000 == 0
  {
  }

  /** The low thirty-two bits of `x`, as unsigned arithmetic of a release build keeps them. */
  function Wrap32(x: int): nat {
    x % 0x1_0000_0000
  }

  function AbsReal(x: real): real {
    if x < 0.0 then -x else x
  }

  /** `f32::clamp(0.0, 1.0)`. */
  function Clamp(x: real): real {
    if x < 0.0 then 0.0 else if x > 1.0 then 1.0 else x
  }
}
