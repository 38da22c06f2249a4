/**
 * The number sub-scanner: decimal, hex, fraction and exponent literals read
 * in one forward pass driven by five flags, followed by the integer
 * conversion of non-floating literals.
 */
module Numbers {
  import opened Tokens
  import opened Cursor

  /** The largest value of the 64-bit unsigned integer conversion. */
  const U64_MAX: nat := 0xFFFF_FFFF_FFFF_FFFF

  /** `a`-`f` in either case, the letters the hex branch accepts. */
  predicate IsHexLetter(c: char) {
    'a' <= c <= 'f' || 'A' <= c <= 'F'
  }

  predicate IsHexDigit(c: char) {
    IsDigit(c) || IsHexLetter(c)
  }

  predicate IsExponentMark(c: char) {
    c == 'e' || c == 'E'
  }

  predicate AllDigits(s: string) {
    forall i :: 0 <= i < |s| ==> IsDigit(s[i])
  }

  predicate AllHexDigits(s: string) {
    forall i :: 0 <= i < |s| ==> IsHexDigit(s[i])
  }

  function DigitValue(c: char): (d: nat)
    requires IsDigit(c)
    ensures d < 10
  {
    c as int - '0' as int
  }

  function HexDigitValue(c: char): (d: nat)
    requires IsHexDigit(c)
    ensures d < 16
  {
    if IsDigit(c) then DigitValue(c)
    else if 'a' <= c <= 'f' then c as int - 'a' as int + 10
    else c as int - 'A' as int + 10
  }

  /** The base-10 value of a digit string (most significant digit first). */
  function DecValue(s: string): nat
    requires AllDigits(s)
  {
    if |s| == 0 then 0 else 10 * DecValue(s[..|s| - 1]) + DigitValue(s[|s| - 1])
  }

  /** The base-16 value of a hex-digit string (most significant digit first). */
  function HexValue(s: string): nat
    requires AllHexDigits(s)
  {
    if |s| == 0 then 0 else 16 * HexValue(s[..|s| - 1]) + HexDigitValue(s[|s| - 1])
  }

  /**
   * The unsigned 64-bit conversion of a digit string in base 10 or 16: an
   * empty string or a value above 2^64 - 1 is rejected.
   */
  function ToUnsigned64(digits: string, hex: bool): (r: Result<nat>)
    requires if hex then AllHexDigits(digits) else AllDigits(digits)
    ensures r.Ok? <==> |digits| > 0 && (if hex then HexValue(digits) else DecValue(digits)) <= U64_MAX
    ensures r.Ok? ==> r.value == if hex then HexValue(digits) else DecValue(digits)
    ensures r.Err? ==> r.error == ConversionFailed
  {
    if |digits| == 0 then Err(ConversionFailed)
    else
      var v := if hex then HexValue(digits) else DecValue(digits);
      if v > U64_MAX then Err(ConversionFailed) else Ok(v)
  }

  /** The scanner's flags. */
  datatype NumFlags = NumFlags(
    hex: bool,          // the literal began with 0x or 0X
    floating: bool,     // a `.` or an exponent has been read
    science: bool,      // an exponent mark has been read
    signedPower: bool,  // an exponent sign has been read
    numberPower: bool)  // a digit of the exponent has been read

  /** The relations between the flags that every step keeps. */
  predicate Consistent(f: NumFlags) {
    && (f.science ==> f.floating)
    && (f.signedPower ==> f.science)
    && (f.numberPower ==> f.science)
    && !(f.hex && f.floating)
  }

  /** The characters a number scan can ever consume. */
  predicate IsNumberChar(c: char) {
    IsHexDigit(c) || c == '.' || c == 'x' || c == 'X' || c == '+' || c == '-'
  }

  /** The sign branch: a sign right after the exponent mark. */
  predicate TakesSign(c: char, f: NumFlags) {
    (c == '-' || c == '+') && f.science && !f.signedPower && !f.numberPower
  }

  /** The character ends the literal: it fits no branch of the loop. */
  predicate EndsLiteral(c: char, f: NumFlags) {
    && !IsDigit(c)
    && !(!f.hex && IsExponentMark(c))
    && !IsHexLetter(c)
    && c != '.'
    && !TakesSign(c, f)
  }

  /** What one turn of the scanning loop does with a character. */
  datatype Move = Take(next: NumFlags) | Stop | Reject

  /**
   * One turn of the scanning loop on character `c` under flags `f`: consume
   * it and update the flags, leave it and end the literal, or reject the
   * literal as an invalid number.
   */
  function Step(c: char, f: NumFlags): (m: Move)
    ensures m.Reject? <==>
      (c == '.' && (f.hex || f.floating)) || (IsHexLetter(c) && !f.hex && !IsExponentMark(c))
    ensures m.Stop? <==> EndsLiteral(c, f)
    ensures m.Take? ==> IsNumberChar(c) && m.next.hex == f.hex && (f.floating ==> m.next.floating)
    ensures m.Take? && Consistent(f) ==> Consistent(m.next)
  {
    if IsDigit(c) then Take(f.(numberPower := f.numberPower || f.science))
    else if !f.hex && IsExponentMark(c) then Take(f.(floating := true, science := true))
    else if IsHexLetter(c) then
      if f.hex then Take(f) else Reject
    else if c == '.' then
      if f.hex || f.floating then Reject else Take(f.(floating := true))
    else if TakesSign(c, f) then Take(f.(signedPower := true))
    else Stop
  }

  /**
   * The scanning loop, from position `p` with flags `f`. It stops, without
   * consuming it, at the first character that fits no branch; a hex letter
   * outside a hex literal, or a `.` in a hex or already floating literal, is
   * an error. Returns the end position and the final flags.
   */
  function NumberLoop(src: seq<char>, p: nat, f: NumFlags): (r: Result<(nat, NumFlags)>)
    requires p <= |src|
    requires Consistent(f)
    decreases |src| - p
    ensures r.Err? ==> r.error == InvalidNumber
    ensures r.Err? ==> exists i :: p <= i < |src| && (src[i] == '.' || (IsHexLetter(src[i]) && !f.hex))
    ensures r.Ok? ==> var (q, g) := r.value;
      && p <= q <= |src|
      && Consistent(g)
      && EndsLiteral(Peek(src, q), g)
      && g.hex == f.hex
      && (f.floating ==> g.floating)
      && (forall i :: p <= i < q ==> IsNumberChar(src[i]))
      && (g.hex ==> forall i :: p <= i < q ==> IsHexDigit(src[i]))
      && (!g.floating && !g.hex ==> forall i :: p <= i < q ==> IsDigit(src[i]))
      && (g.floating && !f.floating ==> exists i :: p <= i < q && (src[i] == '.' || IsExponentMark(src[i])))
  {
    match Step(Peek(src, p), f)
    case Take(g) => NumberLoop(src, Advance(src, p).1, g)
    case Reject => Err(InvalidNumber)
    case Stop => Ok((p, f))
  }

  /** The literal starting at `p - 1` opens with `0x` or `0X`. */
  predicate HexPrefix(src: seq<char>, p: nat)
    requires 0 < p <= |src|
  {
    src[p - 1] == '0' && p < |src| && (src[p] == 'x' || src[p] == 'X')
  }

  /**
   * Detects the hex prefix: after a leading `0`, an `x` and then an `X` is
   * tried. Returns whether the literal is hex and the position after the
   * prefix.
   */
  function HexStart(src: seq<char>, p: nat): (r: (bool, nat))
    requires 0 < p <= |src|
    ensures r.0 <==> HexPrefix(src, p)
    ensures r.1 == if r.0 then p + 1 else p
  {
    if Previous(src, p) == '0' then
      var (lower, pl) := MatchChar(src, p, 'x');
      if lower then (true, pl) else MatchChar(src, p, 'X')
    else (false, p)
  }

  /**
   * Scans a number literal whose first character, a digit or a `.` that the
   * dispatcher saw followed by a digit, has just been consumed, so the
   * lexeme starts at `p - 1`. Returns the value and the end position.
   */
  function ScanNumber(src: seq<char>, p: nat): (r: Result<(NumberValue, nat)>)
    requires 0 < p <= |src|
    requires IsDigit(src[p - 1]) || src[p - 1] == '.'
    ensures r.Err? ==> r.error == InvalidNumber || r.error == ConversionFailed
    ensures r.Ok? ==> p <= r.value.1 <= |src|
    ensures r.Ok? ==> r.value.1 == |src| || (!IsDigit(src[r.value.1]) && src[r.value.1] != '.')
    ensures r.Ok? && r.value.0.Integer? ==> r.value.0.n <= U64_MAX
    ensures r.Ok? && r.value.0.Floating? ==> r.value.0.lexeme == src[p - 1..r.value.1]
  {
    var (hex, p1) := HexStart(src, p);
    var floating := Previous(src, p1) == '.';
    var (q, g) :- NumberLoop(src, p1, NumFlags(hex, floating, false, false, false));
    var word := ExtractWord(src, p - 1, q);
    if g.floating then
      Ok((Floating(word), q))
    else if g.hex then
      var n :- ToUnsigned64(word[2..], true);
      Ok((Integer(n), q))
    else
      var n :- ToUnsigned64(word, false);
      Ok((Integer(n), q))
  }

  /**
   * A literal opening with `0x`/`0X` is always an integer: its value is the
   * base-16 value of the non-empty run of hex digits after the prefix, and
   * the scan stops at the first character that is not a hex digit.
   */
  lemma ScanNumberHex(src: seq<char>, p: nat)
    requires 0 < p <= |src| && HexPrefix(src, p)
    ensures var r := ScanNumber(src, p);
      r.Ok? ==> var (v, q) := r.value;
        && v.Integer?
        && p + 1 < q
        && AllHexDigits(src[p + 1..q])
        && v.n == HexValue(src[p + 1..q])
        && (q == |src| || !IsHexDigit(src[q]))
  {
    var (hex, p1) := HexStart(src, p);
    assert hex && p1 == p + 1;
    var lr := NumberLoop(src, p1, NumFlags(true, false, false, false, false));
    if lr.Ok? {
      var (q, g) := lr.value;
      var word := src[p - 1..q];
      assert word[2..] == src[p + 1..q];
    }
  }

  /**
   * A literal without the hex prefix that comes out as an integer is a run
   * of decimal digits, and its value is the base-10 value of the whole
   * lexeme; the scan stops before a character that is neither a digit, a
   * hex letter nor a `.`.
   */
  lemma ScanNumberDecimal(src: seq<char>, p: nat)
    requires 0 < p <= |src| && (IsDigit(src[p - 1]) || src[p - 1] == '.')
    requires !HexPrefix(src, p)
    ensures var r := ScanNumber(src, p);
      r.Ok? && r.value.0.Integer? ==> var (v, q) := r.value;
        && AllDigits(src[p - 1..q])
        && v.n == DecValue(src[p - 1..q])
        && (q == |src| || (!IsHexDigit(src[q]) && src[q] != '.'))
  {
    var floating := Previous(src, p) == '.';
    var lr := NumberLoop(src, p, NumFlags(false, floating, false, false, false));
    if lr.Ok? && !lr.value.1.floating {
      var (q, g) := lr.value;
      assert !floating;
      assert IsDigit(src[p - 1]);
      assert AllDigits(src[p - 1..q]);
    }
  }

  /** A floating literal has no hex prefix, and its lexeme holds a `.` or an exponent mark. */
  lemma FloatingHasMark(src: seq<char>, p: nat)
    requires 0 < p <= |src| && (IsDigit(src[p - 1]) || src[p - 1] == '.')
    ensures var r := ScanNumber(src, p);
      r.Ok? && r.value.0.Floating? ==>
        !HexPrefix(src, p) && exists i :: p - 1 <= i < r.value.1 && (src[i] == '.' || IsExponentMark(src[i]))
  {
    var (hex, p1) := HexStart(src, p);
    var floating := Previous(src, p1) == '.';
    var lr := NumberLoop(src, p1, NumFlags(hex, floating, false, false, false));
    if lr.Ok? && lr.value.1.floating && floating {
      assert src[p - 1] == '.';
    }
  }

  /** A lexeme without hex prefix that holds a `.` or an exponent mark is a floating literal. */
  lemma MarkMakesFloating(src: seq<char>, p: nat)
    requires 0 < p <= |src| && (IsDigit(src[p - 1]) || src[p - 1] == '.')
    ensures var r := ScanNumber(src, p);
      r.Ok? && !HexPrefix(src, p) && (exists i :: p - 1 <= i < r.value.1 && (src[i] == '.' || IsExponentMark(src[i]))) ==>
        r.value.0.Floating?
  {
    var floating := Previous(src, p) == '.';
    var lr := NumberLoop(src, p, NumFlags(false, floating, false, false, false));
    if lr.Ok? && !lr.value.1.floating {
      var (q, g) := lr.value;
      assert forall i :: p <= i < q ==> IsDigit(src[i]);
      assert IsDigit(src[p - 1]);
    }
  }

  /**
   * A literal comes out floating exactly when it has no hex prefix and its
   * lexeme holds a `.` or an exponent mark; a leading `.` counts.
   */
  lemma ScanNumberFloating(src: seq<char>, p: nat)
    requires 0 < p <= |src| && (IsDigit(src[p - 1]) || src[p - 1] == '.')
    ensures var r := ScanNumber(src, p);
      r.Ok? ==>
        (r.value.0.Floating? <==>
          !HexPrefix(src, p) && exists i :: p - 1 <= i < r.value.1 && (src[i] == '.' || IsExponentMark(src[i])))
  {
    FloatingHasMark(src, p);
    MarkMakesFloating(src, p);
  }

  /**
   * Digits never change the flags outside an exponent, so a run of them is
   * consumed in one go.
   */
  lemma {:induction false} DigitRun(src: seq<char>, p: nat, k: nat, f: NumFlags)
    requires p <= k <= |src| && Consistent(f) && !f.science
    requires forall i :: p <= i < k ==> IsDigit(src[i])
    ensures NumberLoop(src, p, f) == NumberLoop(src, k, f)
    decreases k - p
  {
    if p < k {
      assert IsDigit(Peek(src, p));
      assert f.(numberPower := f.numberPower || f.science) == f;
      DigitRun(src, p + 1, k, f);
    }
  }

  /**
   * After a run of decimal digits, a second `.` is an error: `1..2` and
   * `1.5.3` are rejected rather than split into several tokens.
   */
  lemma SecondDotIsInvalid(src: seq<char>, p: nat, j: nat, k: nat)
    requires 0 < p <= j < k < |src|
    requires forall i :: p - 1 <= i < j ==> IsDigit(src[i])
    requires src[j] == '.'
    requires forall i :: j < i < k ==> IsDigit(src[i])
    requires src[k] == '.'
    ensures ScanNumber(src, p) == Err(InvalidNumber)
  {
    var f := NumFlags(false, false, false, false, false);
    var f2 := f.(floating := true);
    assert HexStart(src, p) == (false, p) by {
      assert p == j || IsDigit(src[p]);
    }
    assert Previous(src, p) != '.';
    DigitRun(src, p, j, f);
    assert NumberLoop(src, j, f) == NumberLoop(src, j + 1, f2);
    DigitRun(src, j + 1, k, f2);
    assert NumberLoop(src, k, f2) == Err(InvalidNumber);
  }

  /**
   * The loop, started at `p` with flags `f`, consumes every character of
   * `src[p..k)` and arrives at `k` with flags `g`.
   */
  predicate Reaches(src: seq<char>, p: nat, f: NumFlags, k: nat, g: NumFlags)
    requires p <= k <= |src|
    decreases k - p
  {
    if p == k then f == g
    else match Step(src[p], f)
      case Take(h) => Reaches(src, p + 1, h, k, g)
      case _ => false
  }

  /** Once the loop has reached `k`, its outcome is the outcome from `k`. */
  lemma {:induction false} LoopReaches(src: seq<char>, p: nat, f: NumFlags, k: nat, g: NumFlags)
    requires p <= k <= |src| && Consistent(f)
    requires Reaches(src, p, f, k, g)
    ensures Consistent(g) && g.hex == f.hex
    ensures NumberLoop(src, p, f) == NumberLoop(src, k, g)
    decreases k - p
  {
    if p < k {
      LoopReaches(src, p + 1, Step(src[p], f).next, k, g);
    }
  }

  /**
   * The loop's outcome read off the characters: when it ends at `q` with
   * flags `g`, it has reached `q` with `g` and stops there; when it fails,
   * it has reached a character it rejects.
   */
  lemma {:induction false} LoopOutcome(src: seq<char>, p: nat, f: NumFlags)
    requires p <= |src| && Consistent(f)
    ensures var r := NumberLoop(src, p, f);
      r.Ok? ==> r.value.0 <= |src| && Reaches(src, p, f, r.value.0, r.value.1) && Step(Peek(src, r.value.0), r.value.1).Stop?
    ensures NumberLoop(src, p, f).Err? ==>
      exists k, g :: p <= k < |src| && Reaches(src, p, f, k, g) && Step(src[k], g).Reject?
    decreases |src| - p
  {
    match Step(Peek(src, p), f)
    case Take(h) =>
      LoopOutcome(src, p + 1, h);
      if NumberLoop(src, p + 1, h).Err? {
        var k, g :| p + 1 <= k < |src| && Reaches(src, p + 1, h, k, g) && Step(src[k], g).Reject?;
        assert Reaches(src, p, f, k, g);
      }
    case Reject =>
      assert Reaches(src, p, f, p, f);
    case Stop =>
  }

  /** Conversely, a rejected character that the loop reaches makes it fail. */
  lemma LoopRejects(src: seq<char>, p: nat, f: NumFlags, k: nat, g: NumFlags)
    requires p <= k < |src| && Consistent(f)
    requires Reaches(src, p, f, k, g) && Step(src[k], g).Reject?
    ensures NumberLoop(src, p, f) == Err(InvalidNumber)
  {
    LoopReaches(src, p, f, k, g);
  }

  /** Conversely, a stopping character that the loop reaches ends the literal there. */
  lemma LoopStops(src: seq<char>, p: nat, f: NumFlags, q: nat, g: NumFlags)
    requires p <= q <= |src| && Consistent(f)
    requires Reaches(src, p, f, q, g) && Step(Peek(src, q), g).Stop?
    ensures NumberLoop(src, p, f) == Ok((q, g))
  {
    LoopReaches(src, p, f, q, g);
  }

  /** Where the loop of the literal opening at `p - 1` starts: after any hex prefix. */
  function LoopStart(src: seq<char>, p: nat): (s: nat)
    requires 0 < p <= |src|
    ensures p <= s <= |src|
  {
    if HexPrefix(src, p) then p + 1 else p
  }

  /** The loop's starting flags: hex after the prefix, floating after a leading `.`. */
  function StartFlags(src: seq<char>, p: nat): (f: NumFlags)
    requires 0 < p <= |src|
    ensures Consistent(f) && !f.science
  {
    NumFlags(HexPrefix(src, p), src[p - 1] == '.', false, false, false)
  }

  /**
   * A literal is an invalid number exactly when the loop, from its start,
   * reaches a character it rejects: a `.` in a hex or already floating
   * literal, or a letter `a`-`f` other than the exponent mark outside a hex
   * literal.
   */
  lemma ScanNumberInvalid(src: seq<char>, p: nat)
    requires 0 < p <= |src| && (IsDigit(src[p - 1]) || src[p - 1] == '.')
    ensures ScanNumber(src, p) == Err(InvalidNumber) <==>
      exists k, g :: LoopStart(src, p) <= k < |src| && Reaches(src, LoopStart(src, p), StartFlags(src, p), k, g)
        && Step(src[k], g).Reject?
  {
    var s := LoopStart(src, p);
    var f := StartFlags(src, p);
    assert HexStart(src, p) == (HexPrefix(src, p), s);
    assert (Previous(src, s) == '.') == (src[p - 1] == '.');
    LoopOutcome(src, s, f);
    if exists k, g :: s <= k < |src| && Reaches(src, s, f, k, g) && Step(src[k], g).Reject? {
      var k, g :| s <= k < |src| && Reaches(src, s, f, k, g) && Step(src[k], g).Reject?;
      LoopRejects(src, s, f, k, g);
    }
  }

  /**
   * Outside a hex literal, a letter `a`-`f` other than the exponent mark
   * that the loop reaches, whether after the leading digits, a fraction or
   * an exponent (`12abc`, `1.5f`, `1e5f`), makes the literal invalid.
   */
  lemma DecimalRejectsHexLetter(src: seq<char>, p: nat, k: nat, g: NumFlags)
    requires 0 < p <= |src| && (IsDigit(src[p - 1]) || src[p - 1] == '.') && !HexPrefix(src, p)
    requires p <= k < |src| && Reaches(src, p, StartFlags(src, p), k, g)
    requires IsHexLetter(src[k]) && !IsExponentMark(src[k])
    ensures ScanNumber(src, p) == Err(InvalidNumber)
  {
    LoopReaches(src, p, StartFlags(src, p), k, g);
    ScanNumberInvalid(src, p);
  }

  predicate IsSign(c: char) {
    c == '+' || c == '-'
  }

  /** A sign may come next only right after an exponent mark. */
  predicate SignReady(src: seq<char>, p: nat, f: NumFlags)
    requires p <= |src|
  {
    f.science && !f.signedPower && !f.numberPower ==> 0 < p && IsExponentMark(src[p - 1])
  }

  lemma {:induction false} LoopSigns(src: seq<char>, p: nat, f: NumFlags)
    requires p <= |src| && Consistent(f) && SignReady(src, p, f)
    ensures var r := NumberLoop(src, p, f);
      r.Ok? ==> forall i :: p <= i < r.value.0 && IsSign(src[i]) ==> 0 < i && IsExponentMark(src[i - 1])
    decreases |src| - p
  {
    match Step(Peek(src, p), f)
    case Take(h) =>
      LoopSigns(src, p + 1, h);
    case _ =>
  }

  /**
   * A `+` or `-` belongs to a literal only right after its exponent mark:
   * `1e+2` is one literal, while `1e2+3` and `1+2` stop before the sign.
   */
  lemma ExponentSign(src: seq<char>, p: nat)
    requires 0 < p <= |src| && (IsDigit(src[p - 1]) || src[p - 1] == '.')
    ensures var r := ScanNumber(src, p);
      r.Ok? ==> forall i :: p - 1 <= i < r.value.1 && IsSign(src[i]) ==> p <= i && IsExponentMark(src[i - 1])
  {
    var s := LoopStart(src, p);
    var f := StartFlags(src, p);
    assert HexStart(src, p) == (HexPrefix(src, p), s);
    assert (Previous(src, s) == '.') == (src[p - 1] == '.');
    LoopSigns(src, s, f);
  }

  /** In a hex literal every hex digit is consumed without changing the flags. */
  lemma {:induction false} HexRun(src: seq<char>, p: nat, k: nat, f: NumFlags)
    requires p <= k <= |src| && Consistent(f) && f.hex
    requires forall i :: p <= i < k ==> IsHexDigit(src[i])
    ensures NumberLoop(src, p, f) == NumberLoop(src, k, f)
    decreases k - p
  {
    if p < k {
      assert Step(src[p], f) == Take(f);
      HexRun(src, p + 1, k, f);
    }
  }

  /**
   * Conversely to ScanNumberHex: `0x` followed by a non-empty run of hex
   * digits, ended by the end of input or a character that is neither a hex
   * digit nor `.`, scans as the integer of the run's base-16 value, or fails
   * conversion above 2^64 - 1.
   */
  lemma HexDigitsScanAsInteger(src: seq<char>, p: nat, q: nat)
    requires 0 < p && p + 1 < q <= |src|
    requires src[p - 1] == '0' && (src[p] == 'x' || src[p] == 'X')
    requires AllHexDigits(src[p + 1..q])
    requires q == |src| || (!IsHexDigit(src[q]) && src[q] != '.')
    ensures var v := HexValue(src[p + 1..q]);
      ScanNumber(src, p) == if v <= U64_MAX then Ok((Integer(v), q)) else Err(ConversionFailed)
  {
    var f := NumFlags(true, false, false, false, false);
    assert HexStart(src, p) == (true, p + 1);
    assert Previous(src, p + 1) != '.';
    forall i | p + 1 <= i < q ensures IsHexDigit(src[i]) {
      assert src[i] == src[p + 1..q][i - (p + 1)];
    }
    HexRun(src, p + 1, q, f);
    assert NumberLoop(src, q, f) == Ok((q, f));
    assert src[p - 1..q][2..] == src[p + 1..q];
  }

  /** A character that fits no branch of the loop ends the literal there. */
  lemma StopsAt(src: seq<char>, q: nat, f: NumFlags)
    requires q <= |src| && Consistent(f)
    requires EndsLiteral(Peek(src, q), f)
    ensures NumberLoop(src, q, f) == Ok((q, f))
  {
  }

  /** The first `.` of a decimal literal makes it floating and is consumed. */
  lemma DotStep(src: seq<char>, j: nat, f: NumFlags)
    requires j < |src| && src[j] == '.'
    requires Consistent(f) && !f.hex && !f.floating
    ensures NumberLoop(src, j, f) == NumberLoop(src, j + 1, f.(floating := true))
  {
  }

  /** Digits, one `.` and digits again are read through to the character after them. */
  lemma DigitsDotDigits(src: seq<char>, p: nat, j: nat, q: nat)
    requires p <= j < q <= |src|
    requires forall i :: p <= i < j ==> IsDigit(src[i])
    requires src[j] == '.'
    requires forall i :: j < i < q ==> IsDigit(src[i])
    requires EndsLiteral(Peek(src, q), NumFlags(false, true, false, false, false))
    ensures NumberLoop(src, p, NumFlags(false, false, false, false, false))
         == Ok((q, NumFlags(false, true, false, false, false)))
  {
    var f0 := NumFlags(false, false, false, false, false);
    var f1 := f0.(floating := true);
    StopsAt(src, q, f1);
    DigitRun(src, p, j, f0);
    DotStep(src, j, f0);
    DigitRun(src, j + 1, q, f1);
  }

  /** The loop reads decimal digits with one `.` through to the character after them. */
  lemma FractionLoop(src: seq<char>, p: nat, j: nat, q: nat)
    requires 0 < p && p - 1 <= j < q <= |src|
    requires forall i :: p - 1 <= i < j ==> IsDigit(src[i])
    requires src[j] == '.'
    requires forall i :: j < i < q ==> IsDigit(src[i])
    requires EndsLiteral(Peek(src, q), NumFlags(false, true, false, false, false))
    ensures !HexPrefix(src, p)
    ensures NumberLoop(src, p, StartFlags(src, p)) == Ok((q, NumFlags(false, true, false, false, false)))
  {
    assert !HexPrefix(src, p) by {
      if src[p - 1] == '0' && p < |src| {
        assert p <= j ==> src[p] == '.' || IsDigit(src[p]);
      }
    }
    var f1 := NumFlags(false, true, false, false, false);
    if j == p - 1 {
      assert StartFlags(src, p) == f1;
      StopsAt(src, q, f1);
      DigitRun(src, p, q, f1);
    } else {
      assert StartFlags(src, p) == NumFlags(false, false, false, false, false) by {
        assert IsDigit(src[p - 1]);
      }
      DigitsDotDigits(src, p, j, q);
    }
  }

  /**
   * Decimal digits with one `.` (`12.5`, `12.` or `.5`), ended by the end of
   * input or any character the loop stops on (a sign or `x` among them),
   * scan as the floating literal of exactly that text.
   */
  lemma FractionScansAsFloating(src: seq<char>, p: nat, j: nat, q: nat)
    requires 0 < p && p - 1 <= j < q <= |src|
    requires forall i :: p - 1 <= i < j ==> IsDigit(src[i])
    requires src[j] == '.'
    requires forall i :: j < i < q ==> IsDigit(src[i])
    requires EndsLiteral(Peek(src, q), NumFlags(false, true, false, false, false))
    ensures ScanNumber(src, p) == Ok((Floating(src[p - 1..q]), q))
  {
    FractionLoop(src, p, j, q);
    assert HexStart(src, p) == (false, p);
    assert (Previous(src, p) == '.') == (src[p - 1] == '.');
  }

  /** The character of a decimal digit. */
  function DigitChar(d: nat): (c: char)
    requires d < 10
    ensures IsDigit(c) && DigitValue(c) == d
  {
    ('0' as int + d) as char
  }

  /**
   * The shortest decimal spelling of `n`: a non-empty digit string without a
   * leading zero unless it is "0".
   */
  function DecimalText(n: nat): (s: string)
    ensures |s| > 0 && AllDigits(s)
    ensures |s| > 1 ==> s[0] != '0'
  {
    if n < 10 then [DigitChar(n)] else DecimalText(n / 10) + [DigitChar(n % 10)]
  }

  /** DecimalText is the inverse of DecValue. */
  lemma {:induction false} DecimalTextValue(n: nat)
    ensures DecValue(DecimalText(n)) == n
  {
    if n >= 10 {
      var s := DecimalText(n);
      var prefix := DecimalText(n / 10);
      assert s[..|s| - 1] == prefix;
      DecimalTextValue(n / 10);
    }
  }

  /**
   * A run of decimal digits without the hex prefix, ended by the end of input
   * or any character the loop stops on (a sign or `x` among them), scans as
   * the integer literal of its base-10 value, or fails conversion above
   * 2^64 - 1.
   */
  lemma DigitsScanAsInteger(src: seq<char>, p: nat, q: nat)
    requires 0 < p <= q <= |src|
    requires AllDigits(src[p - 1..q])
    requires !HexPrefix(src, p)
    requires EndsLiteral(Peek(src, q), NumFlags(false, false, false, false, false))
    ensures var v := DecValue(src[p - 1..q]);
      ScanNumber(src, p) == if v <= U64_MAX then Ok((Integer(v), q)) else Err(ConversionFailed)
  {
    var f := NumFlags(false, false, false, false, false);
    assert HexStart(src, p) == (false, p);
    assert Previous(src, p) != '.' by {
      assert src[p - 1] == src[p - 1..q][0];
    }
    assert forall i :: p <= i < q ==> IsDigit(src[i]) by {
      forall i | p <= i < q ensures IsDigit(src[i]) {
        assert src[i] == src[p - 1..q][i - (p - 1)];
      }
    }
    DigitRun(src, p, q, f);
    assert NumberLoop(src, q, f) == Ok((q, f));
    assert NumberLoop(src, p, f) == Ok((q, f));
  }

  /**
   * Round trip: the decimal spelling of any 64-bit value, followed by the
   * end of input or any character the loop stops on, scans back to that
   * value; after `0` that excludes `x`, which would open a hex prefix.
   */
  lemma DecimalRoundTrip(src: seq<char>, start: nat, e: nat, n: nat)
    requires n <= U64_MAX
    requires e == start + |DecimalText(n)| && e <= |src|
    requires src[start..e] == DecimalText(n)
    requires EndsLiteral(Peek(src, e), NumFlags(false, false, false, false, false))
    requires n == 0 ==> Peek(src, e) != 'x' && Peek(src, e) != 'X'
    ensures ScanNumber(src, start + 1) == Ok((Integer(n), e))
  {
    var text := DecimalText(n);
    assert !HexPrefix(src, start + 1) by {
      if src[start] == '0' {
        assert text[0] == '0';
        assert e == start + 1;
      }
    }
    DecimalTextValue(n);
    DigitsScanAsInteger(src, start + 1, e);
  }

}
