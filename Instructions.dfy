/**
 * The machine's instruction set and the one-line rendering each instruction
 * shows in the thread view (`human_readable_string`).
 */
module Instructions {

  /** The six instruction kinds; an instruction is an immutable value. */
  datatype Instr =
    | SemaphoreMake(name: string, initialCount: int)
    | SemaphoreP(name: string)
    | SemaphoreV(name: string)
    | Print(text: string)
    | SpawnThread(programName: string)
    | Jmp(to: int)

  datatype Option<T> = None | Some(value: T)

  // ----- decimal rendering of the jump target -----

  predicate IsDigit(c: char) {
    '0' <= c <= '9'
  }

  predicate AllDigits(s: string) {
    forall k :: 0 <= k < |s| ==> IsDigit(s[k])
  }

  function DigitChar(d: nat): (c: char)
    requires d < 10
    ensures IsDigit(c) && c as int - '0' as int == d
  {
    ('0' as int + d) as char
  }

  /** Plain decimal digits of `n`, most significant first, without leading zeros. */
  function NatToString(n: nat): (s: string)
    ensures |s| > 0 && AllDigits(s)
    ensures s[0] != '0' || n == 0
  {
    if n < 10 then [DigitChar(n)] else NatToString(n / 10) + [DigitChar(n % 10)]
  }

  /** The number a string of decimal digits denotes. */
  function DigitsValue(s: string): nat
    requires AllDigits(s)
  {
    if s == [] then 0 else DigitsValue(s[..|s| - 1]) * 10 + (s[|s| - 1] as int - '0' as int)
  }

  lemma {:induction false} NatToStringRoundTrip(n: nat)
    ensures DigitsValue(NatToString(n)) == n
  {
    if n >= 10 {
      var s := NatToString(n);
      assert s[..|s| - 1] == NatToString(n / 10);
      NatToStringRoundTrip(n / 10);
    }
  }

  /**
   * How JavaScript's `+` renders an integer-valued number: decimal digits,
   * preceded by a minus sign when negative.
   */
  function IntToString(i: int): string {
    if i < 0 then "-" + NatToString(-i) else NatToString(i)
  }

  function ParseInt(s: string): Option<int> {
    if |s| > 1 && s[0] == '-' && AllDigits(s[1..]) then Some(0 - DigitsValue(s[1..]) as int)
    else if |s| > 0 && AllDigits(s) then Some(DigitsValue(s))
    else None
  }

  lemma IntToStringRoundTrip(i: int)
    ensures ParseInt(IntToString(i)) == Some(i)
  {
    if i < 0 {
      var s := IntToString(i);
      assert s[1..] == NatToString(-i);
      NatToStringRoundTrip(-i);
    } else {
      NatToStringRoundTrip(i);
    }
  }

  // ----- human_readable_string -----

  /** The text the thread view draws for an instruction. */
  function Render(instr: Instr): string {
    match instr
    case SemaphoreMake(name, _) => "semaphore_make " + name
    case SemaphoreP(name) => "semaphore_p " + name
    case SemaphoreV(name) => "semaphore_v " + name
    case Print(text) => "print '" + text + "'"
    case SpawnThread(programName) => "spawn_thread '" + programName + "'"
    case Jmp(to) => "jmp " + IntToString(to) + ""
  }

  /**
   * The instruction as far as its rendering shows it: `semaphore_make`
   * does not render its initial count, so that count is set to zero.
   */
  function Visible(instr: Instr): (v: Instr)
    ensures v.SemaphoreMake? <==> instr.SemaphoreMake?
    ensures !instr.SemaphoreMake? ==> v == instr
    ensures instr.SemaphoreMake? ==> v.name == instr.name && v.initialCount == 0
  {
    if instr.SemaphoreMake? then SemaphoreMake(instr.name, 0) else instr
  }

  predicate HasPrefix(s: string, p: string) {
    |p| <= |s| && s[..|p|] == p
  }

  /** Reads a rendering back; the partner of `Render`. */
  function Decode(r: string): Option<Instr> {
    if HasPrefix(r, "semaphore_make ") then Some(SemaphoreMake(r[15..], 0))
    else if HasPrefix(r, "semaphore_p ") then Some(SemaphoreP(r[12..]))
    else if HasPrefix(r, "semaphore_v ") then Some(SemaphoreV(r[12..]))
    else if HasPrefix(r, "print '") && |r| >= 8 && r[|r| - 1] == '\'' then Some(Print(r[7..|r| - 1]))
    else if HasPrefix(r, "spawn_thread '") && |r| >= 15 && r[|r| - 1] == '\'' then
      Some(SpawnThread(r[14..|r| - 1]))
    else if HasPrefix(r, "jmp ") then
      match ParseInt(r[4..])
      case Some(to) => Some(Jmp(to))
      case None => None
    else None
  }

  /** Every rendering reads back as the instruction, up to the unrendered initial count. */
  lemma RenderRoundTrip(instr: Instr)
    ensures Decode(Render(instr)) == Some(Visible(instr))
  {
    match instr
    case SemaphoreMake(name, _) => DecodeMake(name);
    case SemaphoreP(name) => DecodeP(name);
    case SemaphoreV(name) => DecodeV(name);
    case Print(text) => DecodePrint(text);
    case SpawnThread(programName) => DecodeSpawn(programName);
    case Jmp(to) => DecodeJmp(to);
  }

  lemma DecodeMake(name: string)
    ensures Decode("semaphore_make " + name) == Some(SemaphoreMake(name, 0))
  {
    var r := "semaphore_make " + name;
    assert r[..15] == "semaphore_make ";
    assert r[15..] == name;
  }

  lemma DecodeP(name: string)
    ensures Decode("semaphore_p " + name) == Some(SemaphoreP(name))
  {
    var r := "semaphore_p " + name;
    assert r[10] == 'p';
    assert !HasPrefix(r, "semaphore_make ") by {
      if |r| >= 15 { assert r[..15][10] != "semaphore_make "[10]; }
    }
    assert r[..12] == "semaphore_p ";
    assert r[12..] == name;
  }

  lemma DecodeV(name: string)
    ensures Decode("semaphore_v " + name) == Some(SemaphoreV(name))
  {
    var r := "semaphore_v " + name;
    assert r[10] == 'v';
    assert !HasPrefix(r, "semaphore_make ") by {
      if |r| >= 15 { assert r[..15][10] != "semaphore_make "[10]; }
    }
    assert !HasPrefix(r, "semaphore_p ") by {
      assert r[..12][10] != "semaphore_p "[10];
    }
    assert r[..12] == "semaphore_v ";
    assert r[12..] == name;
  }

  lemma DecodePrint(text: string)
    ensures Decode("print '" + text + "'") == Some(Print(text))
  {
    var r := "print '" + text + "'";
    assert r[0] == 'p';
    assert !HasPrefix(r, "semaphore_make ") by {
      if |r| >= 15 { assert r[..15][0] != "semaphore_make "[0]; }
    }
    assert !HasPrefix(r, "semaphore_p ") by {
      if |r| >= 12 { assert r[..12][0] != "semaphore_p "[0]; }
    }
    assert !HasPrefix(r, "semaphore_v ") by {
      if |r| >= 12 { assert r[..12][0] != "semaphore_v "[0]; }
    }
    assert r[..7] == "print '";
    assert r[7..|r| - 1] == text;
  }

  lemma DecodeSpawn(programName: string)
    ensures Decode("spawn_thread '" + programName + "'") == Some(SpawnThread(programName))
  {
    var r := "spawn_thread '" + programName + "'";
    assert r[1] == 'p';
    assert !HasPrefix(r, "semaphore_make ") by {
      assert r[..15][1] != "semaphore_make "[1];
    }
    assert !HasPrefix(r, "semaphore_p ") by {
      assert r[..12][1] != "semaphore_p "[1];
    }
    assert !HasPrefix(r, "semaphore_v ") by {
      assert r[..12][1] != "semaphore_v "[1];
    }
    assert !HasPrefix(r, "print '") by {
      assert r[..7][0] != "print '"[0];
    }
    assert r[..14] == "spawn_thread '";
    assert r[14..|r| - 1] == programName;
  }

  lemma DecodeJmp(to: int)
    ensures Decode("jmp " + IntToString(to) + "") == Some(Jmp(to))
  {
    var r := "jmp " + IntToString(to) + "";
    assert r[0] == 'j';
    assert !HasPrefix(r, "semaphore_make ") by {
      if |r| >= 15 { assert r[..15][0] != "semaphore_make "[0]; }
    }
    assert !HasPrefix(r, "semaphore_p ") by {
      if |r| >= 12 { assert r[..12][0] != "semaphore_p "[0]; }
    }
    assert !HasPrefix(r, "semaphore_v ") by {
      if |r| >= 12 { assert r[..12][0] != "semaphore_v "[0]; }
    }
    assert !HasPrefix(r, "print '") by {
      if |r| >= 7 { assert r[..7][0] != "print '"[0]; }
    }
    assert !HasPrefix(r, "spawn_thread '") by {
      if |r| >= 14 { assert r[..14][0] != "spawn_thread '"[0]; }
    }
    assert r[..4] == "jmp ";
    assert r[4..] == IntToString(to);
    IntToStringRoundTrip(to);
  }

  /**
   * Two instructions draw the same text exactly when they agree on
   * everything the rendering shows.
   */
  lemma RenderInjective(a: Instr, b: Instr)
    ensures Render(a) == Render(b) <==> Visible(a) == Visible(b)
  {
    RenderRoundTrip(a);
    RenderRoundTrip(b);
  }
}
