/** What several modules share: options, and the text operations of the source
    on ASCII text. */
module Common {

  datatype Option<T> = None | Some(value: T)

  predicate IsSpace(c: char) {
    c == ' ' || c == '\t' || c == '\n' || c == '\r'
  }

  function StripLeft(s: string): string {
    if s != "" && IsSpace(s[0]) then StripLeft(s[1..]) else s
  }

  function StripRight(s: string): string {
    if s != "" && IsSpace(s[|s| - 1]) then StripRight(s[..|s| - 1]) else s
  }

  function Strip(s: string): string {
    StripRight(StripLeft(s))
  }

  predicate AllSpace(s: string) {
    forall i :: 0 <= i < |s| ==> IsSpace(s[i])
  }

  lemma {:induction false} StripLeftSplits(s: string)
    ensures var n := |s| - |StripLeft(s)|;
            n >= 0 && AllSpace(s[..n]) && StripLeft(s) == s[n..] && (n < |s| ==> !IsSpace(s[n]))
  {
    if s != "" && IsSpace(s[0]) {
      StripLeftSplits(s[1..]);
      var n := |s| - |StripLeft(s)|;
      assert s[..n] == [s[0]] + s[1..][..n - 1];
    }
  }

  lemma {:induction false} StripRightSplits(s: string)
    ensures var n := |StripRight(s)|;
            n <= |s| && AllSpace(s[n..]) && StripRight(s) == s[..n] && (n > 0 ==> !IsSpace(s[n - 1]))
  {
    if s != "" && IsSpace(s[|s| - 1]) {
      StripRightSplits(s[..|s| - 1]);
      var n := |StripRight(s)|;
      assert s[n..] == s[..|s| - 1][n..] + [s[|s| - 1]];
    }
  }

  lemma StripsToNothingExactlyWhen(s: string)
    ensures Strip(s) == "" <==> AllSpace(s)
  {
    var rest := StripLeft(s);
    StripLeftSplits(s);
    StripRightSplits(rest);
    var n: nat := |s| - |rest|;
    assert s == s[..n] + rest;
  }

  /** s is t with nothing but space before and after. */
  predicate IsWithSpaceAround(s: string, t: string) {
    exists n :: 0 <= n && n + |t| <= |s| && AllSpace(s[..n]) && s[n..n + |t|] == t && AllSpace(s[n + |t|..])
  }

  /** A text without outer space is what is left of another exactly when that is it
      with space around. */
  lemma StripsToExactlyWhen(s: string, t: string)
    requires t != "" && !IsSpace(t[0]) && !IsSpace(t[|t| - 1])
    ensures Strip(s) == t <==> IsWithSpaceAround(s, t)
  {
    var rest := StripLeft(s);
    StripLeftSplits(s);
    StripRightSplits(rest);
    var n: nat := |s| - |rest|;
    if Strip(s) == t {
      assert s[n..n + |t|] == rest[..|t|] && s[n + |t|..] == rest[|t|..];
    }
    if k: nat :| k + |t| <= |s| && AllSpace(s[..k]) && s[k..k + |t|] == t && AllSpace(s[k + |t|..]) {
      SurroundedText(s, t, k);
    }
  }

  lemma {:induction false} StripLeftOf(l: string, u: string)
    requires AllSpace(l) && u != "" && !IsSpace(u[0])
    ensures StripLeft(l + u) == u
  {
    if l == "" {
      assert l + u == u;
    } else {
      assert (l + u)[0] == l[0] && (l + u)[1..] == l[1..] + u;
      StripLeftOf(l[1..], u);
    }
  }

  lemma {:induction false} StripRightOf(u: string, r: string)
    requires u != "" && !IsSpace(u[|u| - 1]) && AllSpace(r)
    ensures StripRight(u + r) == u
  {
    if r == "" {
      assert u + r == u;
    } else {
      var n := |r| - 1;
      assert (u + r)[|u + r| - 1] == r[n] && (u + r)[..|u + r| - 1] == u + r[..n];
      StripRightOf(u, r[..n]);
    }
  }

  lemma SurroundedText(s: string, t: string, k: nat)
    requires t != "" && !IsSpace(t[0]) && !IsSpace(t[|t| - 1])
    requires k + |t| <= |s| && AllSpace(s[..k]) && s[k..k + |t|] == t && AllSpace(s[k + |t|..])
    ensures Strip(s) == t
  {
    var r := s[k + |t|..];
    assert s == s[..k] + (t + r);
    StripLeftOf(s[..k], t + r);
    StripRightOf(t, r);
  }

  function Upper(s: string): string {
    seq(|s|, i requires 0 <= i < |s| => if 'a' <= s[i] <= 'z' then s[i] - 'a' + 'A' else s[i])
  }

  function Lower(s: string): string {
    seq(|s|, i requires 0 <= i < |s| => if 'A' <= s[i] <= 'Z' then s[i] - 'A' + 'a' else s[i])
  }

  /** c and d are one letter of the alphabet, in either case, or the same character. */
  predicate SameLetter(c: char, d: char) {
    c == d || ('a' <= c <= 'z' && d as int + 32 == c as int) || ('a' <= d <= 'z' && c as int + 32 == d as int)
  }

  lemma LowersAgreeExactlyWhen(s: string, t: string)
    ensures Lower(s) == Lower(t) <==> |s| == |t| && forall i :: 0 <= i < |s| ==> SameLetter(s[i], t[i])
  {
    assert |Lower(s)| == |s| && |Lower(t)| == |t|;
    forall i | 0 <= i < |s| && i < |t| ensures Lower(s)[i] == Lower(t)[i] <==> SameLetter(s[i], t[i]) {
      var c, d := s[i] as int, t[i] as int;
      assert Lower(s)[i] as int == if 65 <= c <= 90 then c + 32 else c;
      assert Lower(t)[i] as int == if 65 <= d <= 90 then d + 32 else d;
    }
    if |s| == |t| && forall i :: 0 <= i < |s| ==> SameLetter(s[i], t[i]) {
      assert forall i :: 0 <= i < |s| ==> Lower(s)[i] == Lower(t)[i];
    }
  }

  /** Upper(s) is the one text without small letters that has the letters of s. */
  lemma UppersExactlyWhen(s: string, t: string)
    ensures t == Upper(s) <==>
            |s| == |t| && forall i :: 0 <= i < |s| ==> SameLetter(s[i], t[i]) && !('a' <= t[i] <= 'z')
  {
    assert |Upper(s)| == |s|;
    if |s| == |t| && forall i :: 0 <= i < |s| ==> SameLetter(s[i], t[i]) && !('a' <= t[i] <= 'z') {
      assert forall i :: 0 <= i < |s| ==> t[i] == Upper(s)[i];
    }
  }

  function Digit(d: int): char
    requires 0 <= d <= 9
  {
    '0' + d as char
  }

  function Decimal(n: int): string
    decreases if n < 0 then 1 else 0, if n < 0 then -n else n
  {
    if n < 0 then "-" + Decimal(-n)
    else if n <= 9 then [Digit(n)]
    else Decimal(n / 10) + [Digit(n % 10)]
  }

  /** Different numbers are written differently. */
  lemma {:induction false} DecimalIsInjective(m: nat, n: nat)
    requires Decimal(m) == Decimal(n)
    ensures m == n
  {
    if m > 9 && n > 9 {
      var s := Decimal(m);
      assert s[..|s| - 1] == Decimal(m / 10) == Decimal(n / 10) && s[|s| - 1] == Digit(m % 10) == Digit(n % 10);
      DecimalIsInjective(m / 10, n / 10);
    } else {
      DecimalIsLong(m);
      DecimalIsLong(n);
    }
  }

  lemma DecimalIsLong(n: nat)
    ensures |Decimal(n)| >= if n <= 9 then 1 else 2
    ensures n <= 9 ==> |Decimal(n)| == 1
  {
  }
}
