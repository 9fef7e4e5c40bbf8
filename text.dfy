/** String helpers shared by every page: the lower-casing used by the
    case-insensitive searches, JavaScript's `includes`, decimal rendering of
    counts in labels, and `split(' ')` with the initials built from it. */
module Text {

  /** Lower-cases ASCII letters and leaves every other character alone. */
  function LowerChar(c: char): (r: char)
    ensures 'A' <= c <= 'Z' ==> r as int == c as int + 32
    ensures !('A' <= c <= 'Z') ==> r == c
    ensures !('A' <= r <= 'Z')
  {
    if 'A' <= c <= 'Z' then (c as int + 32) as char else c
  }

  function Lower(s: string): (r: string)
    ensures |r| == |s|
    ensures forall i :: 0 <= i < |s| ==> r[i] == LowerChar(s[i])
  {
    if s == [] then [] else [LowerChar(s[0])] + Lower(s[1..])
  }

  lemma {:induction false} LowerIdempotent(s: string)
    ensures Lower(Lower(s)) == Lower(s)
  {
    var l := Lower(s);
    assert forall i :: 0 <= i < |l| ==> LowerChar(l[i]) == l[i];
  }

  /** `s.includes(t)`: t occurs in s as a contiguous block. */
  predicate Contains(s: string, t: string)
    decreases |s|
  {
    if |t| > |s| then false
    else if s[..|t|] == t then true
    else |s| > 0 && Contains(s[1..], t)
  }

  /** t occurs in s starting at offset i. */
  predicate OccursAt(s: string, t: string, i: int) {
    0 <= i <= |s| - |t| && s[i..i + |t|] == t
  }

  /** Contains agrees with the occurrence-at-an-offset definition of a substring. */
  lemma {:induction false} ContainsIff(s: string, t: string)
    ensures Contains(s, t) <==> exists i :: OccursAt(s, t, i)
    decreases |s|
  {
    if |t| > |s| {
    } else if s[..|t|] == t {
      assert OccursAt(s, t, 0);
    } else if |s| == 0 {
    } else {
      ContainsIff(s[1..], t);
      if Contains(s, t) {
        var i :| OccursAt(s[1..], t, i);
        assert s[1..][i..i + |t|] == s[i + 1..i + 1 + |t|];
        assert OccursAt(s, t, i + 1);
      }
      if exists i :: OccursAt(s, t, i) {
        var i :| OccursAt(s, t, i);
        assert i != 0;
        assert s[1..][i - 1..i - 1 + |t|] == s[i..i + |t|];
        assert OccursAt(s[1..], t, i - 1);
      }
    }
  }

  /** The empty search term occurs in every string, so an empty search keeps everything. */
  lemma EmptyIsContained(s: string)
    ensures Contains(s, "")
  {
    assert s[..0] == "";
  }

  /** Case-insensitive `includes`: both sides are lowered first. */
  predicate ContainsIgnoringCase(s: string, t: string) {
    Contains(Lower(s), Lower(t))
  }

  lemma EmptyIsContainedIgnoringCase(s: string)
    ensures ContainsIgnoringCase(s, "")
  {
    EmptyIsContained(Lower(s));
  }

  // ---------------------------------------------------------------------------
  // Decimal rendering of non-negative numbers (template literals such as `${n}`)

  function DigitChar(d: nat): (c: char)
    requires d < 10
    ensures '0' <= c <= '9' && c as int - '0' as int == d
  {
    ('0' as int + d) as char
  }

  function NatToString(n: nat): (r: string)
    ensures |r| > 0
    ensures forall i :: 0 <= i < |r| ==> '0' <= r[i] <= '9'
  {
    if n < 10 then [DigitChar(n)] else NatToString(n / 10) + [DigitChar(n % 10)]
  }

  /** Reads a string of decimal digits back as a number. */
  function DecimalValue(s: string): nat
    requires forall i :: 0 <= i < |s| ==> '0' <= s[i] <= '9'
  {
    if s == [] then 0 else DecimalValue(s[..|s| - 1]) * 10 + (s[|s| - 1] as int - '0' as int)
  }

  lemma {:induction false} DecimalRoundTrip(n: nat)
    ensures DecimalValue(NatToString(n)) == n
  {
    if n >= 10 {
      DecimalRoundTrip(n / 10);
      var r := NatToString(n);
      assert r[..|r| - 1] == NatToString(n / 10);
    }
  }

  lemma NatToStringInjective(m: nat, n: nat)
    ensures NatToString(m) == NatToString(n) ==> m == n
  {
    DecimalRoundTrip(m);
    DecimalRoundTrip(n);
  }

  predicate IsDigit(c: char) {
    '0' <= c <= '9'
  }

  /** The length of the run of digits that starts the string. */
  function LeadingDigits(s: string): (n: nat)
    ensures n <= |s|
  {
    if s == [] || !IsDigit(s[0]) then 0 else 1 + LeadingDigits(s[1..])
  }

  lemma {:induction false} LeadingDigitsOf(a: string, x: string)
    requires forall i :: 0 <= i < |a| ==> IsDigit(a[i])
    requires x == [] || !IsDigit(x[0])
    ensures LeadingDigits(a + x) == |a|
  {
    if a == [] {
      assert a + x == x;
    } else {
      assert (a + x)[0] == a[0];
      assert (a + x)[1..] == a[1..] + x;
      LeadingDigitsOf(a[1..], x);
    }
  }

  /** A run of digits followed by a tail that does not start with a digit is
      split in only one way. */
  lemma DigitsThenTail(a: string, x: string, b: string, y: string)
    requires forall i :: 0 <= i < |a| ==> IsDigit(a[i])
    requires forall i :: 0 <= i < |b| ==> IsDigit(b[i])
    requires x == [] || !IsDigit(x[0])
    requires y == [] || !IsDigit(y[0])
    requires a + x == b + y
    ensures a == b && x == y
  {
    LeadingDigitsOf(a, x);
    LeadingDigitsOf(b, y);
    assert (a + x)[..|a|] == a && (a + x)[|a|..] == x;
    assert (b + y)[..|b|] == b && (b + y)[|b|..] == y;
  }

  /** A number written between a common prefix and a tail that does not start
      with a digit can be read back: equal texts mean equal numbers and equal tails. */
  lemma NumberInContext(p: string, m: nat, x: string, n: nat, y: string)
    requires x == [] || !IsDigit(x[0])
    requires y == [] || !IsDigit(y[0])
    requires p + NatToString(m) + x == p + NatToString(n) + y
    ensures m == n && x == y
  {
    var a, b := NatToString(m), NatToString(n);
    assert (p + a + x)[|p|..] == a + x;
    assert (p + b + y)[|p|..] == b + y;
    DigitsThenTail(a, x, b, y);
    NatToStringInjective(m, n);
  }

  /** The French plural suffix used throughout: "s" exactly when the count exceeds one. */
  function PluralS(n: int): (r: string)
    ensures r == "s" <==> n > 1
    ensures r == "" <==> n <= 1
  {
    if n > 1 then "s" else ""
  }

  /** `Math.abs` on an integer. */
  function Abs(n: int): nat {
    if n < 0 then -n else n
  }

  /** `s.endsWith(t)`. */
  predicate EndsWith(s: string, t: string) {
    |t| <= |s| && s[|s| - |t|..] == t
  }

  // ---------------------------------------------------------------------------
  // split(' ') and the initials of a name

  /** `s.split(' ')`: the words between spaces, empty words included. */
  function Split(s: string): (ws: seq<string>)
    ensures |ws| >= 1
    ensures forall k :: 0 <= k < |ws| ==> ' ' !in ws[k]
  {
    if s == [] then [""]
    else
      var rest := Split(s[1..]);
      if s[0] == ' ' then [""] + rest
      else [[s[0]] + rest[0]] + rest[1..]
  }

  /** `ws.join(' ')`. */
  function Join(ws: seq<string>): string
    requires |ws| >= 1
  {
    if |ws| == 1 then ws[0] else ws[0] + " " + Join(ws[1..])
  }

  /** Joining the words of a split gives back the original string. */
  lemma {:induction false} JoinSplit(s: string)
    ensures Join(Split(s)) == s
  {
    if s != [] {
      JoinSplit(s[1..]);
      var rest := Split(s[1..]);
      if s[0] == ' ' {
        assert Split(s) == [""] + rest;
        assert (([""] + rest)[1..]) == rest;
        calc {
          Join(Split(s));
          "" + " " + Join(rest);
          [s[0]] + s[1..];
          s;
        }
      } else {
        var w := [[s[0]] + rest[0]] + rest[1..];
        assert Split(s) == w;
        if |rest| == 1 {
          assert Join(rest) == rest[0];
          calc {
            Join(w);
            [s[0]] + rest[0];
            [s[0]] + s[1..];
            s;
          }
        } else {
          assert w[1..] == rest[1..];
          calc {
            Join(w);
            ([s[0]] + rest[0]) + " " + Join(rest[1..]);
            [s[0]] + (rest[0] + " " + Join(rest[1..]));
            [s[0]] + Join(rest);
            s;
          }
        }
      }
    }
  }

  /** `ws.map(n => n[0]).join('')`: the first character of each word; an empty
      word yields `undefined`, which `join` renders as nothing. */
  function FirstChars(ws: seq<string>): string
  {
    if ws == [] then "" else (if ws[0] == "" then "" else [ws[0][0]]) + FirstChars(ws[1..])
  }

  function Initials(name: string): string {
    FirstChars(Split(name))
  }

  /** Independent characterisation: the non-space characters that start the
      string or follow a space. `afterSpace` says whether the previous character
      was a space (true at the start). */
  function WordStarts(s: string, afterSpace: bool): string
  {
    if s == [] then ""
    else (if s[0] != ' ' && afterSpace then [s[0]] else "") + WordStarts(s[1..], s[0] == ' ')
  }

  lemma {:induction false} WordStartsSplit(s: string, afterSpace: bool)
    ensures WordStarts(s, afterSpace) ==
            if afterSpace then FirstChars(Split(s)) else FirstChars(Split(s)[1..])
  {
    if s != [] {
      var rest := Split(s[1..]);
      WordStartsSplit(s[1..], s[0] == ' ');
      if s[0] == ' ' {
        assert Split(s) == [""] + rest;
        assert ([""] + rest)[1..] == rest;
      } else {
        var w := [[s[0]] + rest[0]] + rest[1..];
        assert Split(s) == w;
        assert w[1..] == rest[1..];
        assert w[0][0] == s[0];
      }
    }
  }

  /** The initials are exactly the characters that begin a space-separated word. */
  lemma InitialsAreWordStarts(name: string)
    ensures Initials(name) == WordStarts(name, true)
  {
    WordStartsSplit(name, true);
  }
}
