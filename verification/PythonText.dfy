/** str() and int() on integers, and the order sorted() gives strings. */
module PythonText {
  import opened Messages

  function DigitChar(d: nat): (c: char)
    requires d < 10
    ensures '0' <= c <= '9' && c as int - '0' as int == d
  {
    ('0' as int + d) as char
  }

  function Digits(n: nat): (s: string)
    ensures s != "" && s[0] != '-' && '0' <= s[0] <= '9' && '0' <= s[|s| - 1] <= '9'
  {
    if n < 10 then [DigitChar(n)] else Digits(n / 10) + [DigitChar(n % 10)]
  }

  function Str(n: int): (s: string)
    ensures s != ""
  {
    if n < 0 then "-" + Digits(-n) else Digits(n)
  }

  // Decimal digits, where single underscores may stand between two of them.
  function ParseDigits(s: string): Option<int> {
    if s == "" then
      None
    else
      var front, last := s[..|s| - 1], s[|s| - 1];
      if !('0' <= last <= '9') then
        None
      else if front == "" then
        Some(last as int - '0' as int)
      else
        match ParseDigits(if front[|front| - 1] == '_' then front[..|front| - 1] else front)
        case None => None
        case Some(n) => Some(10 * n + (last as int - '0' as int))
  }

  // The white space that int() passes over.
  predicate IsSpace(c: char) {
    var n := c as int;
    || 0x9 <= n <= 0xD || n == 0x20 || n == 0x85 || n == 0xA0 || n == 0x1680 || 0x2000 <= n <= 0x200A
    || n == 0x2028 || n == 0x2029 || n == 0x202F || n == 0x205F || n == 0x3000
  }

  function Stripped(s: string): string {
    if s == "" then ""
    else if IsSpace(s[0]) then Stripped(s[1..])
    else if IsSpace(s[|s| - 1]) then Stripped(s[..|s| - 1])
    else s
  }

  // A number without white space around it.
  function Signed(t: string): Option<int> {
    if t != "" && t[0] == '-' then
      match ParseDigits(t[1..])
      case None => None
      case Some(n) => Some(-n)
    else
      ParseDigits(if t != "" && t[0] == '+' then t[1..] else t)
  }

  // int(s); None is the ValueError.
  function Int(s: string): Option<int> {
    Signed(Stripped(s))
  }

  function Power10(k: nat): (p: nat)
    ensures p > 0
  {
    if k == 0 then 1 else 10 * Power10(k - 1)
  }

  // The k-th digit from the right is that of the k-th power of ten.
  lemma {:induction false} DigitPlaces(n: nat, k: nat)
    requires k < |Digits(n)|
    ensures Digits(n)[|Digits(n)| - 1 - k] == DigitChar(n / Power10(k) % 10)
    decreases k
  {
    if k > 0 {
      DigitPlaces(n / 10, k - 1);
      DivideTwice(n, Power10(k - 1));
    }
  }

  lemma DivideTwice(n: nat, p: nat)
    requires p > 0
    ensures n / 10 / p == n / (10 * p)
  {
    var q, r := n / 10 / p, n / 10 % p;
    assert n / 10 == p * q + r;
    assert n == 10 * (p * q + r) + n % 10 == (10 * p) * q + (10 * r + n % 10);
    assert 10 * r + n % 10 < 10 * p;
    Quotient(n, 10 * p, q, 10 * r + n % 10);
  }

  lemma Quotient(n: nat, d: nat, q: nat, r: nat)
    requires d > 0 && n == d * q + r && r < d
    ensures n / d == q
  {
    assert d * (n / d - q) == r - n % d;
    Multiple(d, n / d - q);
  }

  lemma Multiple(d: nat, m: int)
    ensures m > 0 ==> d * m >= d
    ensures m < 0 ==> d * m + d <= 0
  {
  }

  lemma {:induction false} ParseDigitsInverts(n: nat)
    ensures ParseDigits(Digits(n)) == Some(n)
  {
    if n < 10 {
    } else {
      ParseDigitsInverts(n / 10);
      assert Digits(n)[..|Digits(n)| - 1] == Digits(n / 10);
    }
  }

  lemma SpaceIsElsewhere(c: char)
    requires '0' <= c <= '9' || c in {'+', '-'}
    ensures !IsSpace(c)
  {
  }

  lemma Unspaced(s: string)
    requires s != "" && !IsSpace(s[0]) && !IsSpace(s[|s| - 1])
    ensures Stripped(s) == s
  {
  }

  lemma IntInvertsStr(n: int)
    ensures Int(Str(n)) == Some(n)
  {
    hide ParseDigits, Stripped, IsSpace, Digits;
    var s := Str(n);
    SpaceIsElsewhere(s[0]);
    SpaceIsElsewhere(s[|s| - 1]);
    Unspaced(s);
    if n < 0 {
      ParseDigitsInverts(-n);
      assert s[1..] == Digits(-n);
    } else {
      ParseDigitsInverts(n);
    }
  }

  predicate AllSpace(s: string) {
    forall c <- s :: IsSpace(c)
  }

  lemma {:induction false} StripsSpace(before: string, t: string, after: string)
    requires AllSpace(before) && AllSpace(after)
    ensures Stripped(before + t + after) == Stripped(t)
    decreases |before| + |t| + |after|
  {
    hide IsSpace;
    var s := before + t + after;
    if before != "" {
      assert s[0] == before[0] && s[1..] == before[1..] + t + after;
      StripsSpace(before[1..], t, after);
    } else if t == "" {
      assert s == after;
      if after != "" {
        assert after[1..] == after[1..] + "" + "";
        StripsSpace(after[1..], "", "");
      }
    } else if IsSpace(t[0]) {
      assert s[1..] == "" + t[1..] + after;
      StripsSpace("", t[1..], after);
    } else if after != "" {
      var last := |after| - 1;
      assert s[0] == t[0] && s[|s| - 1] == after[last] && s[..|s| - 1] == "" + t + after[..last];
      StripsSpace("", t, after[..last]);
    } else {
      assert s == t;
    }
  }

  // White space around a number makes no difference, nor does a plus sign.
  lemma IntReads(before: string, t: string, after: string)
    requires AllSpace(before) && AllSpace(after)
    ensures Int(before + t + after) == Int(t)
    ensures t != "" && '0' <= t[0] <= '9' && '0' <= t[|t| - 1] <= '9' ==> Int(before + ("+" + t) + after) == Int(t)
  {
    hide Signed, Stripped, IsSpace, AllSpace;
    StripsSpace(before, t, after);
    StripsSpace(before, "+" + t, after);
    if t != "" && '0' <= t[0] <= '9' && '0' <= t[|t| - 1] <= '9' {
      PlusSign(t);
    }
  }

  lemma PlusSign(t: string)
    requires t != "" && '0' <= t[0] <= '9' && '0' <= t[|t| - 1] <= '9'
    ensures Signed(Stripped("+" + t)) == Signed(Stripped(t))
  {
    hide ParseDigits, Stripped, IsSpace;
    var s := "+" + t;
    SpaceIsElsewhere(s[0]);
    SpaceIsElsewhere(t[0]);
    SpaceIsElsewhere(t[|t| - 1]);
    assert s[|s| - 1] == t[|t| - 1] && s[1..] == t;
    Unspaced(s);
    Unspaced(t);
  }

  // Strings compare character by character; a prefix comes first.
  predicate Less(s: string, t: string) {
    t != "" && (s == "" || s[0] < t[0] || (s[0] == t[0] && Less(s[1..], t[1..])))
  }

  // The strings are the same up to i, and there s has the smaller character.
  ghost predicate SmallerAt(s: string, t: string, i: nat) {
    i < |s| && i < |t| && s[..i] == t[..i] && s[i] < t[i]
  }

  lemma SmallerLater(s: string, t: string, i: nat)
    requires s != "" && t != "" && s[0] == t[0]
    ensures SmallerAt(s, t, i + 1) <==> SmallerAt(s[1..], t[1..], i)
    ensures !SmallerAt(s, t, 0)
  {
    if i + 1 <= |s| && i + 1 <= |t| {
      assert s[..i + 1] == [s[0]] + s[1..][..i] && t[..i + 1] == [t[0]] + t[1..][..i];
    }
  }

  // The first difference decides, and a first part comes before the whole.
  lemma {:induction false} LessExactly(s: string, t: string)
    ensures Less(s, t) <==> s < t || exists i: nat :: SmallerAt(s, t, i)
    decreases |s|
  {
    hide SmallerAt;
    if s == "" || t == "" || s[0] != t[0] {
      DecidedAtOnce(s, t);
    } else {
      LessExactly(s[1..], t[1..]);
      assert s == [s[0]] + s[1..] && t == [t[0]] + t[1..];
      SmallerLater(s, t, 0);
      if i: nat :| SmallerAt(s, t, i) {
        SmallerLater(s, t, i - 1);
      }
      if i: nat :| SmallerAt(s[1..], t[1..], i) {
        SmallerLater(s, t, i);
      }
    }
  }

  lemma DecidedAtOnce(s: string, t: string)
    requires s == "" || t == "" || s[0] != t[0]
    ensures Less(s, t) <==> s < t || exists i: nat :: SmallerAt(s, t, i)
  {
    if s != "" && t != "" && s[0] < t[0] {
      assert SmallerAt(s, t, 0);
    }
    if i: nat :| SmallerAt(s, t, i) {
      SameFirst(s, t, i);
    }
  }

  lemma SameFirst(s: string, t: string, i: nat)
    ensures SmallerAt(s, t, i) && i > 0 ==> s[0] == t[0]
  {
    if SmallerAt(s, t, i) && i > 0 {
      assert s[..i][0] == t[..i][0];
    }
  }

  lemma LessTotal(s: string, t: string)
    ensures s == t || Less(s, t) || Less(t, s)
    ensures !(Less(s, t) && Less(t, s))
    ensures !Less(s, s)
  {
    if s == "" {
    } else {
      LessTotal(s[1..], s[1..]);
      if t != "" && s[0] == t[0] {
        LessTotal(s[1..], t[1..]);
        assert s == [s[0]] + s[1..] && t == [t[0]] + t[1..];
      }
    }
  }

  lemma LessTransitive(s: string, t: string, u: string)
    requires Less(s, t) && Less(t, u)
    ensures Less(s, u)
  {
    if s == "" {
    } else if s[0] == t[0] && t[0] == u[0] {
      LessTransitive(s[1..], t[1..], u[1..]);
    }
  }

  predicate IsLeast(s: string, keys: set<string>) {
    s in keys && forall k <- keys :: k == s || Less(s, k)
  }

  lemma LeastExists(keys: set<string>)
    requires keys != {}
    ensures exists s :: IsLeast(s, keys)
  {
    var k :| k in keys;
    if keys == {k} {
      assert IsLeast(k, keys);
    } else {
      LeastExists(keys - {k});
      var s :| IsLeast(s, keys - {k});
      LessTotal(s, k);
      if Less(s, k) {
        assert IsLeast(s, keys);
      } else {
        forall l | l in keys ensures l == k || Less(k, l) {
          if l != k && l != s {
            LessTransitive(k, s, l);
          }
        }
        assert IsLeast(k, keys);
      }
    }
  }

  predicate Increasing(keys: seq<string>) {
    forall i, j | 0 <= i < j < |keys| :: Less(keys[i], keys[j])
  }

  // sorted(keys)
  ghost function Sorted(keys: set<string>): (r: seq<string>)
    ensures forall k :: k in keys <==> k in r
    ensures Increasing(r)
  {
    if keys == {} then []
    else
      LeastExists(keys);
      var s :| IsLeast(s, keys);
      [s] + Sorted(keys - {s})
  }

  lemma LeastIsFirst(keys: set<string>, s: string)
    requires IsLeast(s, keys)
    ensures Sorted(keys) == [s] + Sorted(keys - {s})
  {
    LeastExists(keys);
    var t :| IsLeast(t, keys) && Sorted(keys) == [t] + Sorted(keys - {t});
    LessTotal(s, t);
  }
}
