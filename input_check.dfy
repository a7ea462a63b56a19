/**
 * The recognisers that screen the command-line arguments before they are
 * converted to numbers: a digit string, a signed decimal and an unsigned
 * decimal, each scanned character by character with an early rejection, and
 * their combination over the seven arguments.
 */
module InputCheck {

  /** A C string: the characters before the terminating NUL, so none of them is NUL. */
  type CString = s: seq<char> | '\0' !in s

  /** isdigit in the C locale. */
  predicate IsDigit(c: char)
  {
    '0' <= c <= '9'
  }

  /** The character at index 0; for the empty string that is the terminating NUL. */
  function First(s: CString): (c: char)
    ensures |s| == 0 <==> c == '\0'
  {
    if |s| == 0 then '\0' else s[0]
  }

  // ---------------------------------------------------------------------
  // What each recogniser accepts

  /** Every character is a digit (the empty string included). */
  predicate AllDigits(s: seq<char>)
  {
    forall k :: 0 <= k < |s| ==> IsDigit(s[k])
  }

  /** The number of '.' characters in s. */
  function Dots(s: seq<char>): nat
  {
    if |s| == 0 then 0 else Dots(s[..|s| - 1]) + (if s[|s| - 1] == '.' then 1 else 0)
  }

  /** Digits and at most one '.', in any positions: what may follow the first character of a number. */
  predicate DecimalTail(t: seq<char>)
  {
    (forall k :: 0 <= k < |t| ==> IsDigit(t[k]) || t[k] == '.') && Dots(t) <= 1
  }

  /** A signed decimal as the program accepts it: '-' or a digit, then a decimal tail. */
  predicate IsNumberText(s: seq<char>)
  {
    |s| > 0 && (s[0] == '-' || IsDigit(s[0])) && DecimalTail(s[1..])
  }

  /** An unsigned decimal as the program accepts it: a digit, then a decimal tail. */
  predicate IsPosNumberText(s: seq<char>)
  {
    |s| > 0 && IsDigit(s[0]) && DecimalTail(s[1..])
  }

  /** The 0/1 flag a C predicate returns. */
  function Flag(b: bool): int
  {
    if b then 1 else 0
  }

  // ---------------------------------------------------------------------
  // Facts about Dots

  /** Extending a sequence by one character adds one dot exactly when that character is '.'. */
  lemma DotsSnoc(t: seq<char>, k: nat)
    requires k < |t|
    ensures Dots(t[..k + 1]) == Dots(t[..k]) + (if t[k] == '.' then 1 else 0)
  {
    assert t[..k + 1][..k] == t[..k];
  }

  /** A prefix has no more dots than the whole. */
  lemma {:induction false} DotsPrefix(t: seq<char>, k: nat)
    requires k <= |t|
    ensures Dots(t[..k]) <= Dots(t)
    decreases |t| - k
  {
    if k < |t| {
      DotsPrefix(t, k + 1);
      DotsSnoc(t, k);
    } else {
      assert t[..k] == t;
    }
  }

  /** A string of digits has no dots. */
  lemma {:induction false} DigitsHaveNoDots(s: seq<char>)
    requires AllDigits(s)
    ensures Dots(s) == 0
  {
    if |s| > 0 {
      assert AllDigits(s[..|s| - 1]);
      DigitsHaveNoDots(s[..|s| - 1]);
    }
  }

  // ---------------------------------------------------------------------
  // The recognisers

  /** is_pos_int: 1 when every character is a digit, 0 at the first one that is not. */
  method IsPosInt(ch: CString) returns (r: int)
    ensures r == Flag(AllDigits(ch))
  {
    var len := |ch|;
    var i := 0;
    while i < len
      invariant 0 <= i <= len
      invariant forall k :: 0 <= k < i ==> IsDigit(ch[k])
    {
      if !IsDigit(ch[i]) {
        return 0;
      }
      i := i + 1;
    }
    return 1;
  }

  /**
   * is_number: 0 when the first character is neither '-' nor a digit (so for
   * the empty string), 0 at a second '.' or at any other non-digit after it,
   * else 1.
   */
  method IsNumber(ch: CString) returns (r: int)
    ensures r == Flag(IsNumberText(ch))
  {
    var len := |ch|;
    var c0 := First(ch);
    if c0 != '-' && !IsDigit(c0) {
      return 0;
    }
    var tail := ch[1..];
    var dotFlag := 0;
    var i := 1;
    while i < len
      invariant 1 <= i <= len
      invariant forall k :: 1 <= k < i ==> IsDigit(ch[k]) || ch[k] == '.'
      invariant dotFlag == Dots(tail[..i - 1]) && dotFlag <= 1
    {
      DotsSnoc(tail, i - 1);
      if ch[i] == '.' {
        if dotFlag == 1 {
          DotsPrefix(tail, i);
          return 0;
        }
        dotFlag := 1;
      } else if !IsDigit(ch[i]) {
        assert tail[i - 1] == ch[i];
        return 0;
      }
      i := i + 1;
    }
    assert tail[..i - 1] == tail;
    return 1;
  }

  /**
   * is_pos_number: as is_number, except that the first character must be a
   * digit.
   */
  method IsPosNumber(ch: CString) returns (r: int)
    ensures r == Flag(IsPosNumberText(ch))
  {
    var len := |ch|;
    var c0 := First(ch);
    if !IsDigit(c0) {
      return 0;
    }
    var tail := ch[1..];
    var dotFlag := 0;
    var i := 1;
    while i < len
      invariant 1 <= i <= len
      invariant forall k :: 1 <= k < i ==> IsDigit(ch[k]) || ch[k] == '.'
      invariant dotFlag == Dots(tail[..i - 1]) && dotFlag <= 1
    {
      DotsSnoc(tail, i - 1);
      if ch[i] == '.' {
        if dotFlag == 1 {
          DotsPrefix(tail, i);
          return 0;
        }
        dotFlag := 1;
      } else if !IsDigit(ch[i]) {
        assert tail[i - 1] == ch[i];
        return 0;
      }
      i := i + 1;
    }
    assert tail[..i - 1] == tail;
    return 1;
  }

  // ---------------------------------------------------------------------
  // How the three languages relate

  /** The unsigned decimals are exactly the signed decimals that do not start with '-'. */
  lemma PosNumberIsUnsignedNumber(s: seq<char>)
    ensures IsPosNumberText(s) <==> IsNumberText(s) && s[0] != '-'
  {
  }

  /** A non-empty digit string passes all three recognisers. */
  lemma DigitsAreNumbers(s: seq<char>)
    requires |s| > 0 && AllDigits(s)
    ensures IsPosNumberText(s) && IsNumberText(s)
  {
    assert AllDigits(s[1..]);
    DigitsHaveNoDots(s[1..]);
  }

  /**
   * The edge cases: the empty string passes only the digit check, a lone '-'
   * and a trailing '.' are numbers, a second '.' is not, and a '-' is no
   * unsigned decimal.
   */
  lemma EdgeCases()
    ensures AllDigits("") && !IsNumberText("") && !IsPosNumberText("")
    ensures AllDigits("0") && IsPosNumberText("0")
    ensures IsNumberText("-") && !IsPosNumberText("-")
    ensures IsNumberText("1.") && IsPosNumberText("1.")
    ensures !IsNumberText("1.2.3") && !IsNumberText("-1a")
  {
    assert "-"[1..] == "";
    assert "1."[1..] == ".";
    assert "."[..0] == "";
    var t := "1.2.3"[1..];
    assert t == ".2.3";
    assert t[..3] == ".2.";
    assert t[..3][..2] == ".2";
    assert t[..3][..2][..1] == ".";
    assert t[..3][..2][..1][..0] == "";
    DotsPrefix(t, 3);
    assert "-1a"[1..][1] == 'a';
  }

  // ---------------------------------------------------------------------
  // check_input_type

  /** Two 0/1 flags multiply to a 0/1 flag that is 1 exactly when both are. */
  lemma FlagProduct(a: int, b: int)
    requires a == 0 || a == 1
    requires b == 0 || b == 1
    ensures a * b == Flag(a == 1 && b == 1)
  {
  }

  /** The seven arguments are of the types the simulation needs, and the result file is usable. */
  predicate ArgumentsValid(argv: seq<CString>, fileReady: bool)
    requires |argv| == 8
  {
    AllDigits(argv[1]) && IsNumberText(argv[2]) && IsPosNumberText(argv[3]) &&
    AllDigits(argv[4]) && AllDigits(argv[5]) && AllDigits(argv[6]) && fileReady
  }

  /**
   * check_input_type: the product of the seven 0/1 checks, so 1 exactly when
   * every argument passes. argv[0] is the program name; fileReady stands for
   * is_file(argv[7]).
   */
  method CheckInputType(argv: seq<CString>, fileReady: bool) returns (r: int)
    requires |argv| == 8
    ensures r == Flag(ArgumentsValid(argv, fileReady))
  {
    var chk1 := IsPosInt(argv[1]);
    var chk2 := IsNumber(argv[2]);
    var chk3 := IsPosNumber(argv[3]);
    var chk4 := IsPosInt(argv[4]);
    var chk5 := IsPosInt(argv[5]);
    var chk6 := IsPosInt(argv[6]);
    var chk7 := Flag(fileReady);
    r := chk1 * chk2 * chk3 * chk4 * chk5 * chk6 * chk7;
    FlagProduct(chk1, chk2);
    FlagProduct(chk1 * chk2, chk3);
    FlagProduct(chk1 * chk2 * chk3, chk4);
    FlagProduct(chk1 * chk2 * chk3 * chk4, chk5);
    FlagProduct(chk1 * chk2 * chk3 * chk4 * chk5, chk6);
    FlagProduct(chk1 * chk2 * chk3 * chk4 * chk5 * chk6, chk7);
  }
}
