/** What validation says of an address program that is not valid: where its fault
    is, at its bytes. */
module AddressVerdicts {
  import opened Words
  import opened Bytes
  import opened AddressProgram

  /** The first `n` bytes are an operation with its operand. */
  predicate Begins(s: seq<byte>, n: int) {
    && 0 < n <= |s|
    && (|| (s[0] == 1 && n == 3) || (s[0] == 2 && n == 1)
        || ((s[0] == 3 || s[0] == 4 || s[0] == 5 || s[0] == 7) && n == 5)
        || (s[0] == 6 && n == 2 && s[1] < 32) || (s[0] == 8 && n == 6 && s[1] < 32))
  }

  /** A program of `n` operations, without a terminator. */
  ghost predicate Operations(p: seq<byte>, n: nat) {
    if n == 0 then p == [] else exists m :: Begins(p, m) && Operations(p[m..], n - 1)
  }

  lemma OneVerdict(total: nat, s: seq<byte>, m: int, count: nat)
    requires Begins(s, m) && count < 64 && |s| <= total
    ensures ValidateFrom(total, s, count) == ValidateFrom(total, s[m..], count + 1)
  {
  }

  type Judge = (seq<byte>, nat) -> Verdict

  /** An operation only counts as one. */
  ghost predicate PassesOver(judge: Judge, total: nat) {
    forall s, m, count: nat {:trigger Begins(s, m), judge(s, count)} ::
      |s| <= total && Begins(s, m) && count < 64 ==> judge(s, count) == judge(s[m..], count + 1)
  }

  function JudgeOf(total: nat): Judge {
    (s: seq<byte>, count: nat) =>
      if |s| <= total then ValidateFrom(total, s, count) else Verdict(false, 0, NoFailure, 0)
  }

  lemma {:induction false} JudgedBehind(judge: Judge, total: nat, p: seq<byte>, n: nat, s: seq<byte>, count: nat)
    requires PassesOver(judge, total) && Operations(p, n) && count + n <= 64 && |p + s| <= total
    ensures judge(p + s, count) == judge(s, count + n)
    decreases n
  {
    if n == 0 {
      assert p + s == s;
    } else {
      var m :| Begins(p, m) && Operations(p[m..], n - 1);
      assert (p + s)[m..] == p[m..] + s && Begins(p + s, m);
      JudgedBehind(judge, total, p[m..], n - 1, s, count + 1);
    }
  }

  lemma JudgePassesOver(total: nat)
    ensures PassesOver(JudgeOf(total), total)
  {
    forall s, m, count: nat | |s| <= total && Begins(s, m) && count < 64
      ensures JudgeOf(total)(s, count) == JudgeOf(total)(s[m..], count + 1)
    {
      OneVerdict(total, s, m, count);
    }
  }

  lemma VerdictBehind(total: nat, p: seq<byte>, n: nat, s: seq<byte>)
    requires Operations(p, n) && n <= 64 && |p + s| <= total
    ensures ValidateFrom(total, p + s, 0) == ValidateFrom(total, s, n)
  {
    JudgePassesOver(total);
    JudgedBehind(JudgeOf(total), total, p, n, s, 0);
  }

  /** The verdict on operations and what follows them: the fault is at the byte
      behind them, or one further if something follows the terminator. An operation
      that is cut is cut, whatever register it names. */
  lemma VerdictPointsAtFault(p: seq<byte>, n: nat, s: seq<byte>)
    requires Operations(p, n) && n <= 64
    ensures var v := ValidateFrom(|p + s|, p + s, 0);
            && (s == [] ==> v == Verdict(false, n, MissingTerminator, |p|))
            && (s != [] && n == 64 ==> v == Verdict(false, 64, OperationLimit, |p|))
            && (s == [0x00] && n < 64 ==> v == Verdict(true, n + 1, NoFailure, 0))
            && (|s| > 1 && s[0] == 0 && n < 64 ==> v == Verdict(false, n + 1, TrailingBytes, |p| + 1))
            && (s != [] && s[0] > 8 && n < 64 ==> v == Verdict(false, n + 1, UnknownOperation, |p|))
            && (s != [] && 1 <= s[0] <= 8 && n < 64 && |s| < [3, 1, 5, 5, 5, 2, 5, 6][s[0] - 1] ==>
                  v == Verdict(false, n + 1, TruncatedOperand, |p|))
            && (n < 64 && ((|s| >= 2 && s[0] == 6) || (|s| >= 6 && s[0] == 8)) && s[1] >= 32 ==>
                  v == Verdict(false, n + 1, InvalidRegister, |p|))
  {
    VerdictBehind(|p + s|, p, n, s);
  }

  /** And every program is of that kind: operations, as many as there are or 64, and
      something that does not begin with one. */
  lemma {:induction false} EveryProgramSplits(program: seq<byte>, room: nat)
    returns (p: seq<byte>, n: nat, s: seq<byte>)
    ensures program == p + s && Operations(p, n) && n <= room
    ensures n == room || forall m :: !Begins(s, m)
    decreases room
  {
    if room == 0 || forall m :: !Begins(program, m) {
      p, n, s := [], 0, program;
    } else {
      var m :| Begins(program, m);
      var q, k, t := EveryProgramSplits(program[m..], room - 1);
      p, n, s := program[..m] + q, k + 1, t;
      assert p[m..] == q && Begins(p, m);
      assert program[..m] + program[m..] == program;
      Assoc(program[..m], q, t);
    }
  }
}
