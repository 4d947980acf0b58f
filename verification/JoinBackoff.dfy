/** The join back-off of the USP backend: a deadline on a 32-bit seconds clock that wraps. */
module JoinBackoff {
  import opened Errors
  import opened Bytes

  const MODULUS := 0x1_0000_0000
  const HALF := 0x8000_0000

  /** `a - b` on `uint32_t`. */
  function Minus(a: u32, b: u32): u32 {
    var x: int, y: int := a, b;
    (x - y) % MODULUS
  }

  /** `(int32_t)x` on the two's-complement targets of the repository. */
  function AsSigned(x: u32): int {
    var v: int := x;
    if v < HALF then v else v - MODULUS
  }

  /** A true time as the clock shows it. */
  function Shown(time: int): u32 {
    time % MODULUS
  }

  function Max0(x: int): int {
    if x > 0 then x else 0
  }

  /** The wrapped subtraction is the true difference exactly when deadline and clock are within half a turn. */
  lemma WrapIsInvisibleIff(deadline: int, now: int)
    ensures AsSigned(Minus(Shown(deadline), Shown(now))) == deadline - now <==> -HALF <= deadline - now < HALF
  {
  }

  /** What the three modem queries answer. */
  datatype Answers = Answers(statusRc: int, joined: bool, bypassRc: int, bypass: bool,
                             certificationRc: int, certification: bool)

  /** The first failing query decides. */
  function QueryRc(ready: bool, a: Answers): int {
    if !ready then ERR_NOT_READY
    else if a.statusRc != OK then a.statusRc
    else if a.bypassRc != OK then a.bypassRc
    else a.certificationRc
  }

  /** Whether joining is held back at all. */
  predicate Applies(a: Answers) {
    !a.joined && !a.bypass && !a.certification
  }

  /** `kept` is what the caller's output holds when no value is written. */
  method GetJoinBackoff(ready: bool, a: Answers, nextJoin: u32, clock: u32, kept: u32)
      returns (rc: int, remainingS: u32)
    ensures rc == QueryRc(ready, a)
    ensures !ready ==> rc == ERR_NOT_READY
    ensures ready && a.statusRc != OK ==> rc == a.statusRc
    ensures ready && a.statusRc == OK && a.bypassRc != OK ==> rc == a.bypassRc
    ensures ready && a.statusRc == OK && a.bypassRc == OK ==> rc == a.certificationRc
    ensures rc == OK && (a.joined || a.bypass || a.certification) ==> remainingS == 0
    ensures rc != OK ==> remainingS == kept
    ensures rc == OK ==> remainingS == if Applies(a) then Max0(AsSigned(Minus(nextJoin, clock))) else 0
    ensures forall deadline, now |
              Shown(deadline) == nextJoin && Shown(now) == clock && -HALF <= deadline - now < HALF ::
              rc == OK ==> remainingS == if Applies(a) then Max0(deadline - now) else 0
  {
    remainingS := kept;
    if !ready {
      return ERR_NOT_READY, kept;
    }
    var remaining := 0;
    rc := a.statusRc;
    if rc == OK {
      rc := a.bypassRc;
    }
    if rc == OK {
      rc := a.certificationRc;
    }
    if rc == OK {
      if !a.joined && !a.bypass && !a.certification {
        remaining := AsSigned(Minus(nextJoin, clock));
      }
      remainingS := if remaining > 0 then remaining else 0;
    }
    forall deadline, now | Shown(deadline) == nextJoin && Shown(now) == clock && -HALF <= deadline - now < HALF
      ensures AsSigned(Minus(nextJoin, clock)) == deadline - now
    {
      WrapIsInvisibleIff(deadline, now);
    }
  }
}
