/** Free names for uploaded files, and the shortening that keeps a name within the file system's limit. */
module Names {

  /* ---------- decimal numerals ---------- */

  const DIGITS := "0123456789"

  function Decimal(n: nat): (s: string)
    ensures |s| > 0 && (|s| == 1 <==> n < 10)
  {
    if n < 10 then [DIGITS[n]] else Decimal(n / 10) + [DIGITS[n % 10]]
  }

  lemma {:induction false} DecimalIsInjective(m: nat, n: nat)
    requires Decimal(m) == Decimal(n)
    ensures m == n
  {
    var a, b := Decimal(m), Decimal(n);
    assert a[|a| - 1] == DIGITS[m % 10] && b[|b| - 1] == DIGITS[n % 10];
    assert m % 10 == n % 10;
    if m >= 10 {
      assert a[..|a| - 1] == Decimal(m / 10) && b[..|b| - 1] == Decimal(n / 10);
      DecimalIsInjective(m / 10, n / 10);
    }
  }

  /* ---------- numbered names ---------- */

  /** The file name asked for, as its stem and suffix. */
  datatype Name = Name(stem: string, suffix: string)

  /** The names tried: the one asked for, then those numbered from 2. */
  function Candidate(name: Name, n: nat): string
    requires n >= 1
  {
    if n == 1 then name.stem + name.suffix else name.stem + "-" + Decimal(n) + name.suffix
  }

  lemma CandidatesDiffer(name: Name, m: nat, n: nat)
    requires 1 <= m < n
    ensures Candidate(name, m) != Candidate(name, n)
  {
    var a, b := Candidate(name, m), Candidate(name, n);
    if m == 1 {
      assert |a| < |b|;
    } else if a == b {
      var from, k := |name.stem| + 1, |name.suffix|;
      assert a[from..|a| - k] == Decimal(m);
      assert b[from..|b| - k] == Decimal(n);
      DecimalIsInjective(m, n);
    }
  }

  function Tried(name: Name, n: nat): set<string>
    requires n >= 1
  {
    if n == 1 then {} else Tried(name, n - 1) + {Candidate(name, n - 1)}
  }

  lemma {:induction false} NeverTriedTwice(name: Name, k: nat, n: nat)
    requires 1 <= k <= n
    ensures Candidate(name, n) !in Tried(name, k)
  {
    if k > 1 {
      NeverTriedTwice(name, k - 1, n);
      CandidatesDiffer(name, k - 1, n);
    }
  }

  /** The first free name of the sequence, found within one try more than there are names taken. `taken` are the
      names in the directory that exist on disk or belong to a registered recording. */
  method UniquePath(name: Name, taken: set<string>) returns (candidate: string, n: nat)
    ensures n >= 1 && candidate == Candidate(name, n)
    ensures candidate !in taken
    ensures forall k | 1 <= k < n :: Candidate(name, k) in taken
    ensures n <= |taken| + 1
  {
    candidate := name.stem + name.suffix;
    n := 1;
    ghost var left := taken;
    while candidate in taken
      invariant n >= 1 && candidate == Candidate(name, n)
      invariant forall k | 1 <= k < n :: Candidate(name, k) in taken
      invariant left == taken - Tried(name, n) && |left| == |taken| - (n - 1)
      decreases |left|
    {
      NeverTriedTwice(name, n, n);
      left := left - {candidate};
      n := n + 1;
      candidate := name.stem + "-" + Decimal(n) + name.suffix;
    }
  }

  /* ---------- shortening ---------- */

  const MAX_NAME_BYTES := 200

  /** Bytes of a character in UTF-8: the shortest form that has bits enough. */
  function Width(c: char): (w: nat)
    ensures 1 <= w <= 4
    ensures var limits := [0x80, 0x800, 0x1_0000, 0x11_0000];
            c as int < limits[w - 1] && (w > 1 ==> limits[w - 2] <= c as int)
  {
    if c < '\U{80}' then 1 else if c < '\U{800}' then 2 else if c < '\U{10000}' then 3 else 4
  }

  function Bytes(s: string): nat {
    if s == [] then 0 else Bytes(s[..|s| - 1]) + Width(s[|s| - 1])
  }

  /** Encoding, cutting and decoding again: the characters that lie wholly within the first `budget` bytes. */
  function Cut(s: string, budget: nat): (r: string)
    ensures r <= s && Bytes(r) <= budget
    ensures r != s ==> |r| < |s| && Bytes(s[..|r| + 1]) > budget
  {
    if Bytes(s) <= budget then s
    else
      var r := Cut(s[..|s| - 1], budget);
      assert r != s[..|s| - 1] ==> s[..|s| - 1][..|r| + 1] == s[..|r| + 1];
      assert s[..|s|] == s;
      r
  }

  function Shorten(name: Name): Name {
    if Bytes(name.stem + name.suffix) <= MAX_NAME_BYTES then name
    else
      var suffix := Cut(name.suffix, MAX_NAME_BYTES / 2);
      var stem := Cut(name.stem, MAX_NAME_BYTES - Bytes(suffix));
      Name(if stem == "" then "audio" else stem, suffix)
  }

  lemma {:induction false} BytesOfConcat(a: string, b: string)
    ensures Bytes(a + b) == Bytes(a) + Bytes(b)
  {
    if b == "" {
      assert a + b == a;
    } else {
      BytesOfConcat(a, b[..|b| - 1]);
      assert (a + b)[..|a + b| - 1] == a + b[..|b| - 1];
    }
  }

  lemma BytesBound(s: string)
    ensures Bytes(s) <= 4 * |s|
  {
  }

  /** A name that fits stays as it is. A shortened one fits, keeps a suffix of ordinary length whole, starts as the
      original does, and loses no character it had room for. */
  lemma ShortenedFits(name: Name)
    ensures var r := Shorten(name);
            && Bytes(r.stem + r.suffix) <= 200
            && (Bytes(name.stem + name.suffix) <= 200 ==> r == name)
            && (Bytes(name.suffix) <= 100 ==> r.suffix == name.suffix)
            && (r.stem <= name.stem || r.stem == "audio")
            && (r.stem <= name.stem && r.stem != name.stem ==>
                  Bytes(name.stem[..|r.stem| + 1]) + Bytes(r.suffix) > 200)
  {
    var r := Shorten(name);
    BytesOfConcat(r.stem, r.suffix);
    BytesOfConcat(name.stem, name.suffix);
    BytesBound("audio");
  }
}
