/** The few java.lang.String and Integer operations the runner relies on:
    case mapping, substring tests, String.split on a single character,
    Integer.parseInt and the decimal rendering of a non-negative int.
    Character classes are those of ASCII. */
module Text {
  import opened Faults

  // ---------------------------------------------------------------------
  // Case mapping (Character.isLowerCase, toLowerCase, toUpperCase)

  predicate IsLower(c: char) { 'a' <= c <= 'z' }

  predicate IsUpper(c: char) { 'A' <= c <= 'Z' }

  function LowerChar(c: char): char
  {
    if IsUpper(c) then (c as int + 32) as char else c
  }

  function UpperChar(c: char): char
  {
    if IsLower(c) then (c as int - 32) as char else c
  }

  /** String.toLowerCase. */
  function ToLower(s: string): string
  {
    seq(|s|, i requires 0 <= i < |s| => LowerChar(s[i]))
  }

  // ---------------------------------------------------------------------
  // Substring tests (startsWith, endsWith, contains)

  predicate StartsWith(s: string, p: string)
  {
    |p| <= |s| && s[..|p|] == p
  }

  predicate EndsWith(s: string, q: string)
  {
    |q| <= |s| && s[|s| - |q|..] == q
  }

  /** String.contains: t occurs in s starting at some position. */
  predicate Contains(s: string, t: string)
    decreases |s|
  {
    StartsWith(s, t) || (|s| > 0 && Contains(s[1..], t))
  }

  /** t occurs in s at position i. */
  predicate OccursAt(s: string, t: string, i: int)
  {
    0 <= i <= |s| - |t| && s[i..i + |t|] == t
  }

  /** Contains agrees with the positional definition of an occurrence. */
  lemma {:induction false} ContainsAt(s: string, t: string)
    ensures Contains(s, t) <==> exists i :: OccursAt(s, t, i)
    decreases |s|
  {
    if StartsWith(s, t) {
      assert OccursAt(s, t, 0);
    } else if |s| == 0 {
      assert forall i :: !OccursAt(s, t, i);
    } else {
      ContainsAt(s[1..], t);
      if Contains(s[1..], t) {
        var i :| OccursAt(s[1..], t, i);
        assert s[i + 1..i + 1 + |t|] == s[1..][i..i + |t|];
        assert OccursAt(s, t, i + 1);
      } else {
        forall i | 0 < i <= |s| - |t|
          ensures OccursAt(s, t, i) ==> OccursAt(s[1..], t, i - 1)
        {
          assert s[1..][i - 1..i - 1 + |t|] == s[i..i + |t|];
        }
      }
    }
  }

  /** Any text that embeds t contains it. */
  lemma ContainsInfix(a: string, t: string, b: string)
    ensures Contains(a + t + b, t)
  {
    var s := a + t + b;
    assert s[|a|..|a| + |t|] == t;
    assert OccursAt(s, t, |a|);
    ContainsAt(s, t);
  }

  // ---------------------------------------------------------------------
  // String.split(",") on a single separator character

  /** Every piece between separators, trailing empty pieces included. */
  function Pieces(s: string, sep: char): (r: seq<string>)
    ensures |r| >= 1
    ensures forall k :: 0 <= k < |r| ==> sep !in r[k]
    decreases |s|
  {
    if s == [] then [[]]
    else
      var rest := Pieces(s[1..], sep);
      if s[0] == sep then [[]] + rest
      else [[s[0]] + rest[0]] + rest[1..]
  }

  /** The pieces joined back with the separator. */
  function Join(ps: seq<string>, sep: char): string
    requires |ps| >= 1
    decreases |ps|
  {
    if |ps| == 1 then ps[0] else ps[0] + [sep] + Join(ps[1..], sep)
  }

  /** Splitting loses nothing: joining the pieces gives back the text. */
  lemma {:induction false} JoinPieces(s: string, sep: char)
    ensures Join(Pieces(s, sep), sep) == s
    decreases |s|
  {
    if s != [] {
      var rest := Pieces(s[1..], sep);
      JoinPieces(s[1..], sep);
      if s[0] == sep {
        assert Pieces(s, sep)[1..] == rest;
      } else {
        var ps := Pieces(s, sep);
        if |rest| == 1 {
          assert ps == [[s[0]] + rest[0]];
        } else {
          assert ps[1..] == rest[1..];
          assert Join(rest, sep) == rest[0] + [sep] + Join(rest[1..], sep);
          assert s == [s[0]] + s[1..];
        }
      }
    }
  }

  /** Drops the empty strings at the end of a piece list, as String.split
      does with a limit of zero. */
  function TrimTrailingEmpty(ps: seq<string>): (r: seq<string>)
    ensures |r| <= |ps| && r == ps[..|r|]
    ensures r == [] || r[|r| - 1] != []
    ensures forall k :: |r| <= k < |ps| ==> ps[k] == []
    decreases |ps|
  {
    if |ps| > 0 && ps[|ps| - 1] == [] then TrimTrailingEmpty(ps[..|ps| - 1]) else ps
  }

  /** String.split(",") for a non-empty string. */
  function Split(s: string, sep: char): (r: seq<string>)
    ensures |r| <= |Pieces(s, sep)| && r == Pieces(s, sep)[..|r|]
    ensures r == [] || r[|r| - 1] != []
    ensures forall k :: |r| <= k < |Pieces(s, sep)| ==> Pieces(s, sep)[k] == []
    ensures forall k :: 0 <= k < |r| ==> sep !in r[k]
  {
    TrimTrailingEmpty(Pieces(s, sep))
  }

  /** Every non-empty piece survives the split, and the split invents none. */
  lemma SplitKeepsNonEmpty(s: string, sep: char)
    ensures forall k :: 0 <= k < |Pieces(s, sep)| && Pieces(s, sep)[k] != [] ==> Pieces(s, sep)[k] in Split(s, sep)
    ensures forall p :: p in Split(s, sep) ==> p in Pieces(s, sep)
  {
    var ps := Pieces(s, sep);
    var r := Split(s, sep);
    forall k | 0 <= k < |ps| && ps[k] != []
      ensures ps[k] in r
    {
      assert k < |r|;
      assert r[k] == ps[k];
    }
  }

  // ---------------------------------------------------------------------
  // Decimal numbers (Integer.parseInt and Integer.toString)

  const IntMin: int := -0x8000_0000
  const IntMax: int := 0x7fff_ffff

  predicate IsDigit(c: char) { '0' <= c <= '9' }

  predicate AllDigits(s: string)
  {
    forall i :: 0 <= i < |s| ==> IsDigit(s[i])
  }

  function DigitValue(c: char): nat
    requires IsDigit(c)
  {
    c as int - '0' as int
  }

  function DigitChar(d: nat): char
    requires d < 10
  {
    ('0' as int + d) as char
  }

  /** The value of a string of decimal digits, most significant first. */
  function DigitsValue(s: string): nat
    requires AllDigits(s)
    decreases |s|
  {
    if s == [] then 0 else DigitsValue(s[..|s| - 1]) * 10 + DigitValue(s[|s| - 1])
  }

  /** The digits following an optional leading sign. */
  function Unsigned(s: string): string
  {
    if |s| > 0 && (s[0] == '-' || s[0] == '+') then s[1..] else s
  }

  /** Integer.parseInt in radix 10: an optional sign, at least one digit,
      and a value that fits in 32 bits. */
  function ParseInt(s: string): (r: Result<int>)
    ensures r.Ok? <==> |Unsigned(s)| > 0 && AllDigits(Unsigned(s))
                       && (if s[0] == '-' then -(DigitsValue(Unsigned(s)) as int) >= IntMin else DigitsValue(Unsigned(s)) <= IntMax)
    ensures r.Ok? ==> IntMin <= r.value <= IntMax
    ensures r.Ok? ==> r.value == if s[0] == '-' then -(DigitsValue(Unsigned(s)) as int) else DigitsValue(Unsigned(s))
    ensures r.Err? ==> r.error == NumberFormat(s)
  {
    var body := Unsigned(s);
    if |body| == 0 || !AllDigits(body) then Err(NumberFormat(s))
    else
      var v := if s[0] == '-' then -(DigitsValue(body) as int) else DigitsValue(body);
      if IntMin <= v <= IntMax then Ok(v) else Err(NumberFormat(s))
  }

  /** Integer.toString of a non-negative value. */
  function NatToString(n: nat): (r: string)
    ensures |r| > 0 && AllDigits(r)
    decreases n
  {
    if n < 10 then [DigitChar(n)] else NatToString(n / 10) + [DigitChar(n % 10)]
  }

  /** Rendering then reading back a number gives the number. */
  lemma {:induction false} DigitsValueOfNatToString(n: nat)
    ensures DigitsValue(NatToString(n)) == n
    decreases n
  {
    var s := NatToString(n);
    if n >= 10 {
      DigitsValueOfNatToString(n / 10);
      assert s[..|s| - 1] == NatToString(n / 10);
    }
  }

  /** Integer.parseInt inverts Integer.toString on every non-negative int. */
  lemma ParseIntOfNatToString(n: nat)
    requires n <= IntMax
    ensures ParseInt(NatToString(n)) == Ok(n)
  {
    DigitsValueOfNatToString(n);
  }

  /** The same for negative ints written with a minus sign. */
  lemma ParseIntOfNegative(n: nat)
    requires 0 < n <= -IntMin
    ensures ParseInt("-" + NatToString(n)) == Ok(-(n as int))
  {
    DigitsValueOfNatToString(n);
    assert Unsigned("-" + NatToString(n)) == NatToString(n);
  }
}
