/** Linux evdev keycodes to HID usages (linux/input-router/src/hidmap.rs). */
module HidMap {
  import opened Bytes
  import Hid

  function KeycodeToUsage(code: u16): Option<u8> {
    match code
    case 1 => Some(0x29)
    case 11 => Some(0x27)
    case 12 => Some(0x2d)
    case 13 => Some(0x2e)
    case 14 => Some(0x2a)
    case 15 => Some(0x2b)
    case 16 => Some(0x14)
    case 17 => Some(0x1a)
    case 18 => Some(0x08)
    case 19 => Some(0x15)
    case 20 => Some(0x17)
    case 21 => Some(0x1c)
    case 22 => Some(0x18)
    case 23 => Some(0x0c)
    case 24 => Some(0x12)
    case 25 => Some(0x13)
    case 26 => Some(0x2f)
    case 27 => Some(0x30)
    case 28 => Some(0x28)
    case 29 => Some(0xe0)
    case 30 => Some(0x04)
    case 31 => Some(0x16)
    case 32 => Some(0x07)
    case 33 => Some(0x09)
    case 34 => Some(0x0a)
    case 35 => Some(0x0b)
    case 36 => Some(0x0d)
    case 37 => Some(0x0e)
    case 38 => Some(0x0f)
    case 39 => Some(0x33)
    case 40 => Some(0x34)
    case 41 => Some(0x35)
    case 42 => Some(0xe1)
    case 43 => Some(0x31)
    case 44 => Some(0x1d)
    case 45 => Some(0x1b)
    case 46 => Some(0x06)
    case 47 => Some(0x19)
    case 48 => Some(0x05)
    case 49 => Some(0x11)
    case 50 => Some(0x10)
    case 51 => Some(0x36)
    case 52 => Some(0x37)
    case 53 => Some(0x38)
    case 54 => Some(0xe5)
    case 55 => Some(0x55)
    case 56 => Some(0xe2)
    case 57 => Some(0x2c)
    case 58 => Some(0x39)
    case 69 => Some(0x53)
    case 70 => Some(0x47)
    case 74 => Some(0x56)
    case 78 => Some(0x57)
    case 82 => Some(0x62)
    case 83 => Some(0x63)
    case 86 => Some(0x64)
    case 87 => Some(0x44)
    case 88 => Some(0x45)
    case 96 => Some(0x58)
    case 97 => Some(0xe4)
    case 98 => Some(0x54)
    case 99 => Some(0x46)
    case 100 => Some(0xe6)
    case 102 => Some(0x4a)
    case 103 => Some(0x52)
    case 104 => Some(0x4b)
    case 105 => Some(0x50)
    case 106 => Some(0x4f)
    case 107 => Some(0x4d)
    case 108 => Some(0x51)
    case 109 => Some(0x4e)
    case 110 => Some(0x49)
    case 111 => Some(0x4c)
    case 119 => Some(0x48)
    case 125 => Some(0xe3)
    case 126 => Some(0xe7)
    case 127 => Some(0x65)
    case _ =>
      if 2 <= code <= 10 then Some(code - 2 + 0x1e)
      else if 59 <= code <= 68 then Some(code - 59 + 0x3a)
      else if 71 <= code <= 73 then Some(code - 71 + 0x5f)
      else if 75 <= code <= 77 then Some(code - 75 + 0x5c)
      else if 79 <= code <= 81 then Some(code - 79 + 0x59)
      else None
  }

  /** Protocol button bit of a mouse button code: left, right, middle. */
  function ButtonBit(code: u16): (bit: Option<nat>)
    ensures bit.Some? ==> bit.value < 3
  {
    if code == 0x110 then Some(0)
    else if code == 0x111 then Some(1)
    else if code == 0x112 then Some(2)
    else None
  }

  /** The keycode of a usage, by usage. */
  ghost function CodeOf(u: u8): int {
    match u
    case 0x04 => 30
    case 0x05 => 48
    case 0x06 => 46
    case 0x07 => 32
    case 0x08 => 18
    case 0x09 => 33
    case 0x0a => 34
    case 0x0b => 35
    case 0x0c => 23
    case 0x0d => 36
    case 0x0e => 37
    case 0x0f => 38
    case 0x10 => 50
    case 0x11 => 49
    case 0x12 => 24
    case 0x13 => 25
    case 0x14 => 16
    case 0x15 => 19
    case 0x16 => 31
    case 0x17 => 20
    case 0x18 => 22
    case 0x19 => 47
    case 0x1a => 17
    case 0x1b => 45
    case 0x1c => 21
    case 0x1d => 44
    case 0x27 => 11
    case 0x28 => 28
    case 0x29 => 1
    case 0x2a => 14
    case 0x2b => 15
    case 0x2c => 57
    case 0x2d => 12
    case 0x2e => 13
    case 0x2f => 26
    case 0x30 => 27
    case 0x31 => 43
    case 0x33 => 39
    case 0x34 => 40
    case 0x35 => 41
    case 0x36 => 51
    case 0x37 => 52
    case 0x38 => 53
    case 0x39 => 58
    case 0x44 => 87
    case 0x45 => 88
    case 0x46 => 99
    case 0x47 => 70
    case 0x48 => 119
    case 0x49 => 110
    case 0x4a => 102
    case 0x4b => 104
    case 0x4c => 111
    case 0x4d => 107
    case 0x4e => 109
    case 0x4f => 106
    case 0x50 => 105
    case 0x51 => 108
    case 0x52 => 103
    case 0x53 => 69
    case 0x54 => 98
    case 0x55 => 55
    case 0x56 => 74
    case 0x57 => 78
    case 0x58 => 96
    case 0x62 => 82
    case 0x63 => 83
    case 0x64 => 86
    case 0x65 => 127
    case 0xe0 => 29
    case 0xe1 => 42
    case 0xe2 => 56
    case 0xe3 => 125
    case 0xe4 => 97
    case 0xe5 => 54
    case 0xe6 => 100
    case 0xe7 => 126
    case _ =>
      if 0x1e <= u <= 0x26 then u - 0x1e + 2
      else if 0x3a <= u <= 0x43 then u - 0x3a + 59
      else if 0x59 <= u <= 0x5b then u - 0x59 + 79
      else if 0x5c <= u <= 0x5e then u - 0x5c + 75
      else if 0x5f <= u <= 0x61 then u - 0x5f + 71
      else -1
  }

  /** Every mapped key has a usage of its own, and none is usage 0. */
  lemma UsagesAreDistinct(c: u16, d: u16)
    requires KeycodeToUsage(c).Some?
    ensures KeycodeToUsage(c).value != 0
    ensures KeycodeToUsage(c) == KeycodeToUsage(d) ==> c == d
  {
    CodeOfUsage(c);
    if KeycodeToUsage(d).Some? {
      CodeOfUsage(d);
    }
    hide KeycodeToUsage, CodeOf;
  }

  lemma CodeOfUsage(c: u16)
    requires KeycodeToUsage(c).Some?
    ensures CodeOf(KeycodeToUsage(c).value) == c
    ensures KeycodeToUsage(c).value != 0
  {
    if c < 25 {
      CodesTo25(c);
    } else if c < 45 {
      CodesTo45(c);
    } else if c < 62 {
      CodesTo62(c);
    } else if c < 83 {
      CodesTo83(c);
    } else if c < 99 {
      CodesTo99(c);
    } else if c < 105 {
      CodesTo105(c);
    } else if c < 109 {
      CodesTo109(c);
    } else {
      CodesFrom109(c);
    }
    hide KeycodeToUsage, CodeOf;
  }

  lemma CodesTo25(c: u16)
    requires c < 25 && KeycodeToUsage(c).Some?
    ensures CodeOf(KeycodeToUsage(c).value) == c && KeycodeToUsage(c).value != 0
  {
  }

  lemma CodesTo45(c: u16)
    requires 25 <= c < 45 && KeycodeToUsage(c).Some?
    ensures CodeOf(KeycodeToUsage(c).value) == c && KeycodeToUsage(c).value != 0
  {
  }

  lemma CodesTo62(c: u16)
    requires 45 <= c < 62 && KeycodeToUsage(c).Some?
    ensures CodeOf(KeycodeToUsage(c).value) == c && KeycodeToUsage(c).value != 0
  {
  }

  lemma CodesTo83(c: u16)
    requires 62 <= c < 83 && KeycodeToUsage(c).Some?
    ensures CodeOf(KeycodeToUsage(c).value) == c && KeycodeToUsage(c).value != 0
  {
  }

  lemma CodesTo99(c: u16)
    requires 83 <= c < 99 && KeycodeToUsage(c).Some?
    ensures CodeOf(KeycodeToUsage(c).value) == c && KeycodeToUsage(c).value != 0
  {
  }

  lemma CodesTo105(c: u16)
    requires 99 <= c < 105 && KeycodeToUsage(c).Some?
    ensures CodeOf(KeycodeToUsage(c).value) == c && KeycodeToUsage(c).value != 0
  {
  }

  lemma CodesTo109(c: u16)
    requires 105 <= c < 109 && KeycodeToUsage(c).Some?
    ensures CodeOf(KeycodeToUsage(c).value) == c && KeycodeToUsage(c).value != 0
  {
  }

  lemma CodesFrom109(c: u16)
    requires 109 <= c && KeycodeToUsage(c).Some?
    ensures CodeOf(KeycodeToUsage(c).value) == c && KeycodeToUsage(c).value != 0
  {
  }

  // ----- physical keys ---------------------------------------------------------

  datatype KeyPress = KeyPress(code: u16, down: bool)

  /** Mapped keys down after some presses and releases. */
  function HeldCodes(es: seq<KeyPress>): set<u16> {
    if es == [] then {}
    else
      var s, e := HeldCodes(es[..|es| - 1]), es[|es| - 1];
      if KeycodeToUsage(e.code).None? then s else if e.down then s + {e.code} else s - {e.code}
  }

  /** The key events the bridge gets for them. */
  function Inputs(es: seq<KeyPress>): seq<Hid.KeyInput> {
    if es == [] then []
    else
      var e := es[|es| - 1];
      Inputs(es[..|es| - 1])
      + match KeycodeToUsage(e.code)
        case None => []
        case Some(u) => [Hid.KeyInput(u, e.down)]
  }

  lemma {:induction false} HeldCodesAreUsages(es: seq<KeyPress>, c: u16)
    requires KeycodeToUsage(c).Some?
    ensures c in HeldCodes(es) <==> KeycodeToUsage(c).value in Hid.PressRun(Inputs(es))
  {
    hide KeycodeToUsage;
    if es != [] {
      var n := |es| - 1;
      HeldCodesAreUsages(es[..n], c);
      UsagesAreDistinct(c, es[n].code);
      var u := KeycodeToUsage(es[n].code);
      if u.Some? {
        UsagesAreDistinct(es[n].code, c);
        assert Inputs(es) == Inputs(es[..n]) + [Hid.KeyInput(u.value, es[n].down)];
        assert Inputs(es)[..|Inputs(es)| - 1] == Inputs(es[..n]);
      } else {
        assert Inputs(es) == Inputs(es[..n]);
      }
    }
  }

  /** While never more than six non-modifiers are down, a physical key is down
      exactly when the bridge holds its usage. */
  lemma PhysicalKeysHeld(v: Hid.View, es: seq<KeyPress>, c: u16)
    requires Hid.Released(v) && Hid.NeverMoreThanSix(Inputs(es)) && KeycodeToUsage(c).Some?
    ensures c in HeldCodes(es) <==> Hid.Holds(Hid.KeyRun(v, Inputs(es)), KeycodeToUsage(c).value)
  {
    hide KeycodeToUsage, Hid.KeyRun, Hid.PressRun;
    HeldCodesAreUsages(es, c);
    Hid.SlotsExactIff(v, Inputs(es));
    var ins := Inputs(es);
    assert ins[..|ins|] == ins;
  }

  // ----- the letters and digits ----------------------------------------------------

  /** The usage of a letter or digit: letters in their order from 0x04, digits from
      0x1e with the zero last (the keyboard page of the HID Usage Tables). */
  function UsageOf(ch: char): int {
    if 'a' <= ch <= 'z' then 0x04 + (ch as int - 'a' as int)
    else if '1' <= ch <= '9' then 0x1e + (ch as int - '1' as int)
    else if ch == '0' then 0x27
    else 0
  }

  /** The keycodes of a row of keys, from its first. */
  ghost predicate Row(row: string, first: u16) {
    first + |row| < 0x1_0000
    && forall i :: 0 <= i < |row| ==> KeycodeToUsage(first + i) == Some(UsageOf(row[i]))
  }

  /** The four rows of the keyboard are mapped to the usages of their letters and
      digits. */
  lemma RowsAreMapped()
    ensures Row("1234567890", 2) && Row("qwertyuiop", 16) && Row("asdfghjkl", 30) && Row("zxcvbnm", 44)
  {
    hide Row;
    DigitRow();
    UpperRow();
    HomeRow();
    LowerRow();
  }

  lemma DigitRow()
    ensures Row("1234567890", 2)
  {
  }

  lemma UpperRow()
    ensures Row("qwertyuiop", 16)
  {
  }

  lemma HomeRow()
    ensures Row("asdfghjkl", 30)
  {
  }

  lemma LowerRow()
    ensures Row("zxcvbnm", 44)
  {
  }
}
