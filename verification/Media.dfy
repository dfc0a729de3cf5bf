/** Serving audio: which bytes a Range header asks for, and sending them from a file that may be
    rewritten meanwhile. */
module Media {
  import opened Records
  import Names

  /* ---------- the Range header ---------- */

  /** The text before and after the first `c`; all of it and nothing when there is none. */
  function Partition(s: string, c: char): (r: (string, string))
    ensures c !in r.0
    ensures c in s ==> s == r.0 + [c] + r.1
    ensures c !in s ==> r == (s, "")
  {
    if s == "" then ("", "")
    else if s[0] == c then ("", s[1..])
    else
      var (before, after) := Partition(s[1..], c);
      assert s == [s[0]] + s[1..];
      ([s[0]] + before, after)
  }

  /** A number as section 14.1.1 of RFC 9110 writes it: digits and nothing else. */
  predicate Plain(s: string) {
    s != "" && forall k | 0 <= k < |s| :: '0' <= s[k] <= '9'
  }

  function Value(s: string): nat
    requires Plain(s)
  {
    var n, digit := |s| - 1, s[|s| - 1] as int - '0' as int;
    if n == 0 then digit else 10 * Value(s[..n]) + digit
  }

  /** What `int()` makes of a text: signs, underscores, blanks around it and other scripts' digits may be read too. */
  type Reader = string -> Option<int>

  /** `int()` takes no more digits than this by default. */
  const MAX_DIGITS: nat := 4300

  /** Plain digits are read as their value, unless there are too many, and no number is negative without a dash. */
  ghost predicate ReadsDecimals(read: Reader) {
    && read("").None?
    && (forall s: string {:trigger read(s)} | Plain(s) ::
          read(s) == Some(Value(s)) || (read(s).None? && |s| > MAX_DIGITS))
    && (forall s: string | '-' !in s && read(s).Some? :: read(s).value >= 0)
  }

  datatype Slice = Slice(start: nat, end: nat)

  /** What comes before and after the first dash. */
  function ResolveParts(read: Reader, first: string, last: string, size: nat): Option<Slice>
    requires ReadsDecimals(read) && '-' !in first
  {
    var (start, end) := if first != "" then (read(first), if last != "" then read(last) else Some(size - 1))
                        else if read(last).None? then (None, None)
                        else
                          var left := size - read(last).value;
                          (Some(if left > 0 then left else 0), Some(size - 1));
    if start.None? || end.None? || start.value > end.value || start.value >= size then None
    else Some(Slice(start.value, if end.value < size - 1 then end.value else size - 1))
  }

  /** `bytes` tells whether the unit was "bytes"; `spec` is the trimmed text after the equals sign. */
  function Resolve(read: Reader, bytes: bool, spec: string, size: nat): Option<Slice>
    requires ReadsDecimals(read)
  {
    var (first, last) := Partition(spec, '-');
    if bytes then ResolveParts(read, first, last, size) else None
  }

  /** The three forms of section 14.1.2 of RFC 9110. */
  datatype RangeSpec = Between(first: nat, last: nat) | From(first: nat) | Suffix(length: nat)

  /** What that section has each of them select from a representation of `size` bytes. */
  function Selected(spec: RangeSpec, size: nat): Option<Slice> {
    match spec
    case Between(first, last) =>
      if last < first || first >= size then None else Some(Slice(first, if last < size then last else size - 1))
    case From(first) => if first >= size then None else Some(Slice(first, size - 1))
    case Suffix(length) =>
      if length == 0 || size == 0 then None else Some(Slice(if length < size then size - length else 0, size - 1))
  }

  predicate SplitsAt(text: string, cut: nat)
    requires cut < |text|
  {
    text[cut] == '-' && '-' !in text[..cut] && '-' !in text[cut + 1..]
  }

  predicate Numeral(s: string, n: nat) {
    Plain(s) && Value(s) == n
  }

  predicate SpelledBy(before: string, after: string, spec: RangeSpec) {
    match spec
    case Between(first, last) => Numeral(before, first) && Numeral(after, last)
    case From(first) => Numeral(before, first) && after == ""
    case Suffix(length) => before == "" && Numeral(after, length)
  }

  /** The header text `text` spells the range, with its one dash and plain digits. */
  predicate Spells(text: string, spec: RangeSpec) {
    exists cut | 0 <= cut < |text| :: SplitsAt(text, cut) && SpelledBy(text[..cut], text[cut + 1..], spec)
  }

  /** The weaker relation the program goes by: the numbers are what `int()` reads. */
  predicate ReadAs(read: Reader, before: string, after: string, spec: RangeSpec) {
    match spec
    case Between(first, last) => read(before) == Some(first) && read(after) == Some(last)
    case From(first) => read(before) == Some(first) && after == ""
    case Suffix(length) => before == "" && read(after) == Some(length)
  }

  lemma OnlyDigits(s: string)
    requires Plain(s)
    ensures '-' !in s
  {
  }

  lemma {:induction false} PartitionAt(s: string, c: char, cut: nat)
    requires cut < |s| && s[cut] == c && c !in s[..cut]
    ensures Partition(s, c) == (s[..cut], s[cut + 1..])
  {
    if cut > 0 {
      assert s[0] == s[..cut][0];
      assert s[1..][..cut - 1] == s[..cut][1..];
      PartitionAt(s[1..], c, cut - 1);
      assert s[..cut] == [s[0]] + s[1..][..cut - 1];
      assert s[1..][cut..] == s[cut + 1..];
    }
  }

  lemma SpelledInParts(text: string, spec: RangeSpec)
    requires Spells(text, spec)
    ensures var (before, after) := Partition(text, '-');
            '-' in text && '-' !in after && SpelledBy(before, after, spec)
  {
    var cut :| 0 <= cut < |text| && SplitsAt(text, cut) && SpelledBy(text[..cut], text[cut + 1..], spec);
    PartitionAt(text, '-', cut);
  }

  predicate Taken(read: Reader, part: string) {
    part == "" || read(part).Some?
  }

  lemma NumeralIsRead(read: Reader, s: string, n: nat)
    requires ReadsDecimals(read) && Numeral(s, n)
    ensures s != "" && (read(s) == Some(n) || (read(s).None? && |s| > MAX_DIGITS))
  {
  }

  lemma ReadPartsResolve(read: Reader, before: string, after: string, spec: RangeSpec, size: nat)
    requires ReadsDecimals(read) && '-' !in before && ReadAs(read, before, after, spec)
    ensures ResolveParts(read, before, after, size) == Selected(spec, size)
  {
  }

  lemma SpelledIsRead(read: Reader, before: string, after: string, spec: RangeSpec)
    requires ReadsDecimals(read) && Taken(read, before) && Taken(read, after) && SpelledBy(before, after, spec)
    ensures ReadAs(read, before, after, spec)
  {
    match spec {
      case Between(first, last) =>
        NumeralIsRead(read, before, first);
        NumeralIsRead(read, after, last);
      case From(first) => NumeralIsRead(read, before, first);
      case Suffix(length) => NumeralIsRead(read, after, length);
    }
  }

  lemma SpelledPartsResolve(read: Reader, before: string, after: string, spec: RangeSpec, size: nat)
    requires ReadsDecimals(read) && '-' !in before && Taken(read, before) && Taken(read, after)
    requires SpelledBy(before, after, spec)
    ensures ResolveParts(read, before, after, size) == Selected(spec, size)
  {
    SpelledIsRead(read, before, after, spec);
    ReadPartsResolve(read, before, after, spec, size);
  }

  /** A single range in any of the three forms is resolved as the standard has it, if its numbers have no more digits
      than `int()` takes; otherwise it may be refused. */
  lemma ResolvesAsStandard(read: Reader, text: string, spec: RangeSpec, size: nat)
    requires ReadsDecimals(read) && Spells(text, spec)
    ensures var (before, after) := Partition(text, '-');
            && Resolve(read, true, text, size)
               == (if Taken(read, before) && Taken(read, after) then Selected(spec, size) else None)
            && (|before| <= MAX_DIGITS ==> Taken(read, before))
            && (|after| <= MAX_DIGITS ==> Taken(read, after))
  {
    SpelledInParts(text, spec);
    var (before, after) := Partition(text, '-');
    if Taken(read, before) && Taken(read, after) {
      SpelledPartsResolve(read, before, after, spec, size);
    }
  }

  function Spelling(spec: RangeSpec): string {
    match spec
    case Between(first, last) => Names.Decimal(first) + "-" + Names.Decimal(last)
    case From(first) => Names.Decimal(first) + "-"
    case Suffix(length) => "-" + Names.Decimal(length)
  }

  lemma {:induction false} DecimalIsRead(n: nat)
    ensures Numeral(Names.Decimal(n), n)
  {
    var s, last := Names.Decimal(n), Names.DIGITS[n % 10];
    assert last as int - '0' as int == n % 10;
    if n >= 10 {
      DecimalIsRead(n / 10);
      assert s[..|s| - 1] == Names.Decimal(n / 10) && s[|s| - 1] == last;
    }
  }

  lemma SplitParts(before: string, after: string)
    ensures var text := before + "-" + after;
            text[|before|] == '-' && text[..|before|] == before && text[|before| + 1..] == after
  {
  }

  lemma PartsSpell(before: string, after: string, spec: RangeSpec)
    requires '-' !in before && '-' !in after && SpelledBy(before, after, spec)
    ensures Spells(before + "-" + after, spec)
  {
    var text := before + "-" + after;
    SplitParts(before, after);
    assert SplitsAt(text, |before|);
  }

  lemma DecimalSpells(n: nat) returns (s: string)
    ensures s == Names.Decimal(n) && Numeral(s, n) && '-' !in s
  {
    s := Names.Decimal(n);
    DecimalIsRead(n);
    OnlyDigits(s);
  }

  /** Every range can be asked for: its numeral spelling spells it. */
  lemma SpellingSpells(spec: RangeSpec)
    ensures Spells(Spelling(spec), spec)
  {
    match spec {
      case Between(first, last) =>
        var before := DecimalSpells(first);
        var after := DecimalSpells(last);
        PartsSpell(before, after, spec);
      case From(first) =>
        var before := DecimalSpells(first);
        PartsSpell(before, "", spec);
        assert before + "-" + "" == Spelling(spec);
      case Suffix(length) =>
        var after := DecimalSpells(length);
        PartsSpell("", after, spec);
        assert "" + "-" + after == Spelling(spec);
    }
  }

  /** Any text is accepted, with a given slice, exactly when the parts around its first dash are read as one of the
      three forms, in whatever notation. */
  lemma AcceptsWhatItReads(read: Reader, text: string, size: nat, slice: Slice)
    requires ReadsDecimals(read)
    ensures var (before, after) := Partition(text, '-');
            Resolve(read, true, text, size) == Some(slice) <==>
            exists spec: RangeSpec :: ReadAs(read, before, after, spec) && Selected(spec, size) == Some(slice)
  {
    var (before, after) := Partition(text, '-');
    if Resolve(read, true, text, size) == Some(slice) {
      var spec := if before == "" then Suffix(read(after).value)
                  else if after == "" then From(read(before).value)
                  else Between(read(before).value, read(after).value);
      assert ReadAs(read, before, after, spec) && Selected(spec, size) == Some(slice);
    } else if spec: RangeSpec :| ReadAs(read, before, after, spec) && Selected(spec, size) == Some(slice) {
      ReadPartsResolve(read, before, after, spec, size);
    }
  }

  /** A text without a dash is none of the three forms, and is resolved as if one followed: `5` as `5-`. */
  lemma DashlessReadsOn(read: Reader, text: string, size: nat)
    requires ReadsDecimals(read) && '-' !in text
    ensures forall spec :: !Spells(text, spec)
    ensures Resolve(read, true, text, size) == if read(text).Some? then Selected(From(read(text).value), size) else None
  {
  }

  /** A dash inside a number can only be its sign. */
  ghost predicate ReadsSigns(read: Reader) {
    forall s :: '-' in s && read(s).Some? ==> read(s).value <= 0
  }

  lemma PlainPartsSpell(text: string)
    requires '-' in text
    requires var (before, after) := Partition(text, '-');
             (before == "" || Plain(before)) && (after == "" || Plain(after)) && !(before == "" && after == "")
    ensures exists spec :: Spells(text, spec)
  {
    var (before, after) := Partition(text, '-');
    var spec := if before == "" then Suffix(Value(after))
                else if after == "" then From(Value(before))
                else Between(Value(before), Value(after));
    if after != "" {
      OnlyDigits(after);
    }
    PartsSpell(before, after, spec);
    assert text == before + "-" + after;
  }

  predicate Odd(part: string) {
    part != "" && !Plain(part)
  }

  lemma {:induction false} SpelledExactly(text: string)
    ensures var (before, after) := Partition(text, '-');
            (exists spec :: Spells(text, spec))
            <==> '-' in text && !Odd(before) && !Odd(after) && !(before == "" && after == "")
  {
    var (before, after) := Partition(text, '-');
    if spec :| Spells(text, spec) {
      SpelledInParts(text, spec);
    } else if '-' in text && !Odd(before) && !Odd(after) && !(before == "" && after == "") {
      PlainPartsSpell(text);
    }
  }

  lemma DashIsOdd(part: string)
    requires '-' in part
    ensures Odd(part)
  {
    if Plain(part) {
      OnlyDigits(part);
    }
  }

  lemma SeveralDashesSelectOneByte(read: Reader, text: string, size: nat)
    requires ReadsDecimals(read) && ReadsSigns(read) && '-' in Partition(text, '-').1
    ensures var r := Resolve(read, true, text, size); r.Some? ==> r.value == Slice(0, 0)
  {
  }

  /** The accepted texts that spell none of the three forms are those without a dash and those with something other
      than digits before or after the first one: a sign, an underscore, a blank, a digit of another script, or one more
      dash. Of those with several dashes only the likes of `0--0` are accepted, and select the first byte. */
  lemma {:induction false} AcceptedUnspelledExactly(read: Reader, text: string, size: nat)
    requires ReadsDecimals(read) && ReadsSigns(read) && Resolve(read, true, text, size).Some?
    ensures var (before, after) := Partition(text, '-');
            && ((forall spec :: !Spells(text, spec)) <==> '-' !in text || Odd(before) || Odd(after))
            && ('-' in after ==> Odd(after) && Resolve(read, true, text, size) == Some(Slice(0, 0)))
  {
    var (before, after) := Partition(text, '-');
    SpelledExactly(text);
    if '-' in after {
      DashIsOdd(after);
      SeveralDashesSelectOneByte(read, text, size);
    }
  }

  /** Reads plain digits, and two of the notations that Python allows besides. */
  function Lenient(s: string): Option<int> {
    if s == "+5" then Some(5) else if s == "1_0" then Some(10) else if Plain(s) then Some(Value(s)) else None
  }

  lemma LenientReads()
    ensures ReadsDecimals(Lenient) && ReadsSigns(Lenient)
  {
    assert "+5"[0] == '+' && "1_0"[1] == '_';
    forall s: string | '-' in s
      ensures Lenient(s).None?
    {
      DashIsOdd(s);
    }
  }

  lemma Numerals()
    ensures Numeral("10", 10) && Numeral("20", 20) && Odd("+5") && Odd("1_0")
  {
    assert "+5"[0] == '+' && "1_0"[1] == '_';
    DecimalIsRead(10);
    DecimalIsRead(20);
    assert Names.Decimal(10) == "10" && Names.Decimal(20) == "20";
  }

  lemma OddIsAccepted(before: string, after: string, first: nat, last: nat, size: nat)
    requires ReadsDecimals(Lenient) && Odd(before) && '-' !in before && after != "" && first <= last < size
    requires Lenient(before) == Some(first) && Lenient(after) == Some(last)
    ensures var text := before + "-" + after;
            Resolve(Lenient, true, text, size) == Some(Slice(first, last)) && forall spec :: !Spells(text, spec)
  {
    var text := before + "-" + after;
    SplitParts(before, after);
    PartitionAt(text, '-', |before|);
    SpelledExactly(text);
  }

  /** A text with a sign, and the bytes it is served. */
  lemma SignIsAccepted()
    ensures ReadsDecimals(Lenient)
    ensures Resolve(Lenient, true, "+5-10", 100) == Some(Slice(5, 10)) && forall spec :: !Spells("+5-10", spec)
  {
    LenientReads();
    Numerals();
    OddIsAccepted("+5", "10", 5, 10, 100);
    assert "+5" + "-" + "10" == "+5-10";
  }

  /** And one with an underscore. */
  lemma UnderscoreIsAccepted()
    ensures ReadsDecimals(Lenient)
    ensures Resolve(Lenient, true, "1_0-20", 100) == Some(Slice(10, 20)) && forall spec :: !Spells("1_0-20", spec)
  {
    LenientReads();
    Numerals();
    OddIsAccepted("1_0", "20", 10, 20, 100);
    assert "1_0" + "-" + "20" == "1_0-20";
  }

  /** Whatever the header, signs and all, an accepted range lies inside the file. */
  lemma AcceptedRangeIsInside(read: Reader, bytes: bool, text: string, size: nat)
    requires ReadsDecimals(read)
    ensures var r := Resolve(read, bytes, text, size);
            r.Some? ==> bytes && r.value.start <= r.value.end < size
  {
  }

  /* ---------- the stream ---------- */

  const CHUNK: nat := 262144

  /** The open file as one observation finds it: a read and the stat after it see the same version. */
  datatype Version = Version(content: seq<bv8>, signature: Signature)

  /** Equal signatures mean equal content, also for the signature under which the content was registered. */
  ghost predicate Honest(world: nat -> Version, registered: Version) {
    && (forall i, j :: world(i).signature == world(j).signature ==> world(i).content == world(j).content)
    && (forall i :: world(i).signature == registered.signature ==> world(i).content == registered.content)
  }

  function Read(v: Version, position: nat, length: nat): seq<bv8> {
    if position >= |v.content| then []
    else if position + length <= |v.content| then v.content[position..position + length]
    else v.content[position..]
  }

  /** Sends `[start, end]`. `expected` is the registered content, as its hash identifies it, or `None` when
      no hash is on record. Whatever happens to the file between two observations, what goes out is a prefix
      of the registered slice; and it is the whole slice when the file keeps its signature, or when a hash is
      on record and the file was only touched: another signature throughout, the same content. */
  method Stream(world: nat -> Version, start: nat, end: int, registered: Version, expected: Option<seq<bv8>>)
    returns (sent: seq<bv8>)
    requires Honest(world, registered)
    requires expected.Some? ==> expected.value == registered.content
    requires start - 1 <= end < |registered.content|
    ensures sent <= registered.content[start..end + 1]
    ensures (forall i :: world(i).signature == registered.signature) ==> sent == registered.content[start..end + 1]
    ensures expected.Some? && (forall i :: world(i) == world(0) && world(i).content == registered.content) ==>
              sent == registered.content[start..end + 1]
  {
    var position, remaining, signature, i := start, end - start + 1, registered.signature, 0;
    sent := [];
    while remaining > 0
      invariant 0 <= remaining && position + remaining == end + 1 && start <= position
      invariant sent == registered.content[start..position]
      invariant forall k :: world(k).signature == signature ==> world(k).content == registered.content
      invariant signature == registered.signature || exists k :: world(k).signature == signature
      decreases remaining
    {
      var seen := world(i);
      var chunk := Read(seen, position, if CHUNK < remaining then CHUNK else remaining);
      if chunk == [] {
        break;
      }
      if seen.signature != signature {
        if expected.None? {
          break;
        }
        i := i + 1;
        var after := world(i);
        if after.content != expected.value || after.signature != seen.signature {
          break;
        }
        signature := after.signature;
      }
      i := i + 1;
      position, remaining := position + |chunk|, remaining - |chunk|;
      sent := sent + chunk;
    }
  }
}
