/** Employee-ID generation, shared verbatim by the admin user-creation
    route and the registration route: a one-letter prefix from the role,
    then the number of the "highest" existing ID with that prefix plus one,
    zero-padded to three digits.

    `GenerateAsWritten` is the code as it stands: the highest ID is taken in
    string order, so once `E1000` exists `E999` still sorts above it and
    `E1000` is produced again. `Generate` takes the numeric maximum instead
    and never repeats an existing ID; the user-creation routes use it. */
module EmployeeIdGenerator {
  import opened Common
  import opened Text
  import opened Seqs

  /** `role === 'executive' ? 'E' : role === 'manager' ? 'M' : 'A'`. */
  function Prefix(role: string): (c: char)
    ensures c == 'E' <==> role == ExecutiveRole
    ensures c == 'M' <==> role == ManagerRole
    ensures c == 'A' <==> role != ExecutiveRole && role != ManagerRole
  {
    if role == ExecutiveRole then 'E' else if role == ManagerRole then 'M' else 'A'
  }

  /** Matched by the query `{ employeeId: { $regex: '^' + prefix } }`. */
  predicate HasPrefix(id: string, c: char)
  {
    |id| > 0 && id[0] == c
  }

  function WithPrefix(ids: seq<string>, c: char): (r: seq<string>)
    ensures forall id :: id in r <==> id in ids && HasPrefix(id, c)
  {
    Filter(ids, (id: string) => HasPrefix(id, c))
  }

  /** `${prefix}${(parseInt(last.substring(1)) + 1).toString().padStart(3, '0')}`,
      where a suffix with no leading digits parses to NaN and renders as
      "NaN". */
  function NextAfter(c: char, last: string): (id: string)
    requires |last| > 0
    ensures |id| > 0 && id[0] == c
  {
    match ParseInt(last[1..])
    case None => [c] + "NaN"
    case Some(k) => [c] + PadStart(IntToString(k + 1), 3, '0')
  }

  /** `generateEmployeeId(role)` as written, over the employee IDs in the
      store. */
  function GenerateAsWritten(role: string, ids: seq<string>): (id: string)
    ensures |id| > 0 && id[0] == Prefix(role)
    ensures (forall x :: x in ids ==> !HasPrefix(x, Prefix(role))) ==> id == [Prefix(role)] + "001"
    ensures (exists x :: x in ids && HasPrefix(x, Prefix(role))) ==>
      exists last :: && last in ids && HasPrefix(last, Prefix(role))
                     && (forall x :: x in ids && HasPrefix(x, Prefix(role)) ==> x == last || LexLess(x, last))
                     && id == NextAfter(Prefix(role), last)
  {
    var p := Prefix(role);
    var candidates := WithPrefix(ids, p);
    if candidates == [] then [p] + "001"
    else
      var last := LexMax(candidates);
      NextAfter(p, last)
  }

  lemma RenderSmall()
    ensures NatToString(1) == "1" && NatToString(2) == "2"
  {
  }

  lemma Render999()
    ensures NatToString(999) == "999"
  {
    assert NatToString(9) == "9";
    assert NatToString(99) == "99";
  }

  lemma Render1000()
    ensures NatToString(1000) == "1000" && NatToString(1001) == "1001"
  {
    assert NatToString(1) == "1";
    assert NatToString(10) == "10";
    assert NatToString(100) == "100";
  }

  lemma Parse001()
    ensures ParseInt("001") == Some(1)
  {
    RenderSmall();
    assert PadStart("1", 3, '0') == "001";
    ParsePadded(1, 3);
  }

  lemma Parse999()
    ensures ParseInt("999") == Some(999)
  {
    Render999();
    assert PadStart("999", 3, '0') == "999";
    ParsePadded(999, 3);
  }

  lemma Parse1000()
    ensures ParseInt("1000") == Some(1000)
  {
    Render1000();
    assert PadStart("1000", 3, '0') == "1000";
    ParsePadded(1000, 3);
  }

  lemma E1000SortsBelowE999()
    ensures LexLess("E1000", "E999") && !LexLess("E999", "E1000")
  {
    assert "E1000"[1..] == "1000" && "E999"[1..] == "999";
    assert LexLess("1000", "999");
    assert !LexLess("999", "1000");
  }

  /** `NextAfter` once the suffix is known to parse as `k`. */
  lemma NextAfterParsed(c: char, last: string, k: int)
    requires |last| > 0 && ParseInt(last[1..]) == Some(k)
    ensures NextAfter(c, last) == [c] + PadStart(IntToString(k + 1), 3, '0')
  {
  }

  /** `NextAfter` once the next number's rendering `d` is known and
      already three digits or longer. */
  lemma NextAfterRendered(c: char, last: string, k: nat, d: string)
    requires |last| > 0 && ParseInt(last[1..]) == Some(k)
    requires NatToString(k + 1) == d && |d| >= 3
    ensures NextAfter(c, last) == [c] + d
  {
    NextAfterParsed(c, last, k);
  }

  lemma SuffixOfE999(last: string)
    requires last == "E999"
    ensures |last| > 0 && ParseInt(last[1..]) == Some(999)
  {
    assert last[1..] == "999";
    Parse999();
  }

  lemma NextAfterNineNineNine(c: char, last: string)
    requires |last| > 0 && ParseInt(last[1..]) == Some(999)
    ensures NextAfter(c, last) == [c] + NatToString(1000)
  {
    var d := NatToString(1000);
    Render1000();
    NextAfterRendered(c, last, 999, d);
  }

  lemma RenderE1000()
    ensures ['E'] + NatToString(1000) == "E1000"
  {
    Render1000();
  }

  lemma NextAfterE999(last: string)
    requires last == "E999"
    ensures NextAfter('E', last) == "E1000"
  {
    SuffixOfE999(last);
    NextAfterNineNineNine('E', last);
    RenderE1000();
  }

  /** The string order puts `E999` above `E1000`, so with both present the
      generator produces `E1000` again; saving it breaks the unique index
      on `employeeId`. */
  lemma AsWrittenRepeatsAnId()
    ensures var ids := ["E999", "E1000"];
            GenerateAsWritten(ExecutiveRole, ids) == "E1000" && GenerateAsWritten(ExecutiveRole, ids) in ids
  {
    var ids := ["E999", "E1000"];
    E1000SortsBelowE999();
    var candidates := WithPrefix(ids, 'E');
    assert "E999" in candidates && "E1000" in candidates;
    assert candidates != [];
    var last := LexMax(candidates);
    assert last == "E999";
    NextAfterE999(last);
  }

  /** The number after the prefix, when it parses as a non-negative
      integer. */
  function SuffixNumber(id: string, c: char): Option<nat>
  {
    if !HasPrefix(id, c) then None
    else
      match ParseInt(id[1..])
      case Some(k) => if k >= 0 then Some(k) else None
      case None => None
  }

  /** The greatest suffix number among the IDs with the prefix, 0 when
      there is none. */
  function MaxNumber(ids: seq<string>, c: char): (m: nat)
    ensures forall id :: id in ids && SuffixNumber(id, c).Some? ==> SuffixNumber(id, c).value <= m
    ensures m == 0 || exists id :: id in ids && SuffixNumber(id, c) == Some(m)
  {
    if ids == [] then 0
    else
      var rest := MaxNumber(ids[1..], c);
      var here := SuffixNumber(ids[0], c);
      assert ids == [ids[0]] + ids[1..];
      if here.Some? && here.value > rest then here.value else rest
  }

  /** The zero-padded rendering of `n` after the prefix. */
  function Padded(c: char, n: nat): (id: string)
    ensures |id| > 0 && id[0] == c
  {
    [c] + PadStart(NatToString(n), 3, '0')
  }

  /** The rendering parses back to the number it renders. */
  lemma PaddedNumber(c: char, n: nat)
    ensures SuffixNumber(Padded(c, n), c) == Some(n)
  {
    ParsePadded(n, 3);
    assert Padded(c, n)[1..] == PadStart(NatToString(n), 3, '0');
  }

  /** A number above every suffix number in use renders as an unused ID. */
  lemma PaddedAboveMaxIsFresh(ids: seq<string>, c: char, n: nat)
    requires n > MaxNumber(ids, c)
    ensures Padded(c, n) !in ids
  {
    var id := Padded(c, n);
    PaddedNumber(c, n);
    forall x | x in ids
      ensures x != id
    {
      if SuffixNumber(x, c).Some? {
        assert SuffixNumber(x, c).value < n;
      }
    }
  }

  /** With no number in use the generator starts at `001`. */
  lemma FirstIdIsOne(ids: seq<string>, c: char, n: nat)
    requires n == MaxNumber(ids, c) + 1
    ensures (forall x :: x in ids ==> SuffixNumber(x, c).None?) ==> Padded(c, n) == [c] + "001"
  {
    if forall x :: x in ids ==> SuffixNumber(x, c).None? {
      assert MaxNumber(ids, c) == 0;
      assert NatToString(1) == "1";
    }
  }

  /** The next number after the greatest one in use, rendered: unused,
      carrying the prefix, and `001` when no number is in use. */
  lemma NextPaddedFacts(ids: seq<string>, c: char, n: nat)
    requires n == MaxNumber(ids, c) + 1
    ensures var id := Padded(c, n);
            && id !in ids
            && |id| > 0 && id[0] == c
            && ((forall x :: x in ids ==> SuffixNumber(x, c).None?) ==> id == [c] + "001")
            && SuffixNumber(id, c) == Some(n)
            && (forall x :: x in ids && SuffixNumber(x, c).Some? ==> SuffixNumber(x, c).value < n)
            && (n == 1 || exists x :: x in ids && SuffixNumber(x, c).Some? && SuffixNumber(x, c).value + 1 == n)
  {
    PaddedAboveMaxIsFresh(ids, c, n);
    FirstIdIsOne(ids, c, n);
    PaddedNumber(c, n);
  }

  /** The facts of `NextPaddedFacts`, stated of the number the rendering
      carries rather than of `n`. */
  lemma NextIdFacts(ids: seq<string>, c: char, n: nat)
    requires n == MaxNumber(ids, c) + 1
    ensures var id := Padded(c, n);
            && id !in ids
            && |id| > 0 && id[0] == c
            && ((forall x :: x in ids ==> SuffixNumber(x, c).None?) ==> id == [c] + "001")
            && SuffixNumber(id, c).Some?
            && (forall x :: x in ids && SuffixNumber(x, c).Some? ==> SuffixNumber(x, c).value < SuffixNumber(id, c).value)
            && (SuffixNumber(id, c).value == 1
                || exists x :: x in ids && SuffixNumber(x, c).Some? && SuffixNumber(x, c).value + 1 == SuffixNumber(id, c).value)
  {
    NextPaddedFacts(ids, c, n);
    assert SuffixNumber(Padded(c, n), c).value == n;
  }

  /** The rendered ID after the greatest number in use after `c`. */
  function NextId(ids: seq<string>, c: char): (id: string)
    ensures id !in ids
    ensures |id| > 0 && id[0] == c
    ensures (forall x :: x in ids ==> SuffixNumber(x, c).None?) ==> id == [c] + "001"
    ensures && SuffixNumber(id, c).Some?
            && (forall x :: x in ids && SuffixNumber(x, c).Some? ==> SuffixNumber(x, c).value < SuffixNumber(id, c).value)
            && (SuffixNumber(id, c).value == 1
                || exists x :: x in ids && SuffixNumber(x, c).Some? && SuffixNumber(x, c).value + 1 == SuffixNumber(id, c).value)
  {
    var n := MaxNumber(ids, c) + 1;
    NextIdFacts(ids, c, n);
    Padded(c, n)
  }

  /** The generator with the numeric maximum: one more than the greatest
      number already used after the prefix, zero-padded to three digits.
      The number it carries is above every number in use, and is either 1
      or one more than a number in use: so `E002` follows `E001`. */
  function Generate(role: string, ids: seq<string>): (id: string)
    ensures id !in ids
    ensures |id| > 0 && id[0] == Prefix(role)
    ensures (forall x :: x in ids ==> SuffixNumber(x, Prefix(role)).None?) ==> id == [Prefix(role)] + "001"
    ensures var c := Prefix(role);
            && SuffixNumber(id, c).Some?
            && (forall x :: x in ids && SuffixNumber(x, c).Some? ==> SuffixNumber(x, c).value < SuffixNumber(id, c).value)
            && (SuffixNumber(id, c).value == 1
                || exists x :: x in ids && SuffixNumber(x, c).Some? && SuffixNumber(x, c).value + 1 == SuffixNumber(id, c).value)
  {
    NextId(ids, Prefix(role))
  }

  /** A prefixed ID whose suffix parses as `k >= 0` carries number `k`. */
  lemma SuffixParsed(id: string, c: char, k: int)
    requires HasPrefix(id, c) && ParseInt(id[1..]) == Some(k) && k >= 0
    ensures SuffixNumber(id, c) == Some(k)
  {
  }

  /** Where no ID carries the prefix, the two generators agree. */
  lemma GeneratorsAgreeOnEmptyStore()
    ensures Generate(ExecutiveRole, []) == GenerateAsWritten(ExecutiveRole, []) == "E001"
  {
    assert Prefix(ExecutiveRole) == 'E';
  }

  lemma GeneratorsAgreeOnOtherPrefix()
    ensures Generate(ManagerRole, ["E001"]) == GenerateAsWritten(ManagerRole, ["E001"]) == "M001"
  {
    assert Prefix(ManagerRole) == 'M';
    assert !HasPrefix("E001", 'M');
    assert SuffixNumber("E001", 'M').None?;
    assert forall x :: x in ["E001"] ==> x == "E001";
  }

  /** The rendering of `n` after the prefix, padded to three digits. */
  lemma PaddedRendering(c: char, n: nat, d: string)
    requires NatToString(n) == d
    ensures Padded(c, n) == [c] + PadStart(d, 3, '0')
  {
  }

  lemma PaddedA002()
    ensures Padded('A', 2) == "A002"
  {
    var d := NatToString(2);
    RenderSmall();
    PaddedRendering('A', 2, d);
    assert PadStart(d, 3, '0') == "002";
  }

  /** Where the highest ID in string order is also the numerically largest,
      the two generators agree. */
  lemma GeneratorsAgreeAfterA001()
    ensures Generate("auditor", ["A001"]) == GenerateAsWritten("auditor", ["A001"]) == "A002"
  {
    var ids := ["A001"];
    assert Prefix("auditor") == 'A';
    assert "A001"[1..] == "001";
    Parse001();
    SuffixParsed("A001", 'A', 1);
    var m := MaxNumber(ids, 'A');
    assert m == 1;
    PaddedA002();
    var candidates := WithPrefix(ids, 'A');
    assert "A001" in candidates;
    assert LexMax(candidates) == "A001";
    NextAfterParsed('A', "A001", 1);
    assert IntToString(1 + 1) == "2";
  }

  /** Numbers below 1000 render in at most three digits. */
  lemma ShortRendering(n: nat)
    requires n < 1000
    ensures |NatToString(n)| <= 3
  {
    if n >= 10 {
      assert |NatToString(n / 10 / 10)| == 1;
    }
  }

  /** Padding a string of at most three digits to three keeps its value. */
  lemma PadThree(d: string)
    requires |d| <= 3 && AllDigits(d)
    ensures var p := PadStart(d, 3, '0');
            |p| == 3 && AllDigits(p) && DigitsValue(p) == DigitsValue(d)
  {
    var p := PadStart(d, 3, '0');
    var z := p[..|p| - |d|];
    assert p == z + d;
    LeadingZerosValue(z, d);
  }

  /** What follows the prefix of `Padded(c, n)`, once `n`'s rendering is
      known. */
  lemma PaddedSuffix(c: char, n: nat, d: string)
    requires d == NatToString(n)
    ensures Padded(c, n)[1..] == PadStart(d, 3, '0')
  {
  }

  /** The padded rendering of a number below 1000 is exactly three digits
      denoting that number. */
  lemma PaddedShape(c: char, n: nat)
    requires n < 1000
    ensures var p := Padded(c, n)[1..];
            |p| == 3 && AllDigits(p) && DigitsValue(p) == n
  {
    var d := NatToString(n);
    ShortRendering(n);
    PadThree(d);
    PaddedSuffix(c, n, d);
  }

  /** The digit a character denotes. */
  function DigitOf(ch: char): int
  {
    ch as int - '0' as int
  }

  lemma ThreeDigitValue(s: string)
    requires |s| == 3 && AllDigits(s)
    ensures DigitsValue(s) == 100 * DigitOf(s[0]) + 10 * DigitOf(s[1]) + DigitOf(s[2])
  {
    var s2 := s[..2];
    var s1 := s2[..1];
    assert s2[..1] == s1 && s1 == [s[0]] && s2[1] == s[1];
    assert DigitsValue(s) == DigitsValue(s2) * 10 + DigitOf(s[2]);
    assert DigitsValue(s2) == DigitsValue(s1) * 10 + DigitOf(s[1]);
    assert s1[..0] == [];
    assert DigitsValue(s1) == DigitOf(s[0]);
  }

  /** On three-digit strings the string order is the numeric order. */
  lemma ThreeDigitOrder(a: string, b: string)
    requires |a| == 3 && AllDigits(a) && |b| == 3 && AllDigits(b)
    requires DigitsValue(a) < DigitsValue(b)
    ensures LexLess(a, b)
  {
    ThreeDigitValue(a);
    ThreeDigitValue(b);
    assert IsDigit(a[1]) && IsDigit(a[2]) && IsDigit(b[1]) && IsDigit(b[2]);
    if a[0] == b[0] {
      assert a[1..][0] == a[1] && b[1..][0] == b[1];
      if a[1] == b[1] {
        assert a[1..][1..] == [a[2]] && b[1..][1..] == [b[2]];
        assert a[2] < b[2];
        assert LexLess([a[2]], [b[2]]);
      }
    }
  }

  /** Below 1000 the padded IDs sort in string order as their numbers do. */
  lemma PaddedOrder(c: char, m: nat, n: nat)
    requires m < n < 1000
    ensures LexLess(Padded(c, m), Padded(c, n))
  {
    PaddedShape(c, m);
    PaddedShape(c, n);
    var a := Padded(c, m);
    var b := Padded(c, n);
    ThreeDigitOrder(a[1..], b[1..]);
  }

  /** The written generator, once its greatest ID in string order is known
      to be the rendering of `k`. */
  lemma AsWrittenAfterPadded(role: string, ids: seq<string>, k: nat)
    requires WithPrefix(ids, Prefix(role)) != []
    requires LexMax(WithPrefix(ids, Prefix(role))) == Padded(Prefix(role), k)
    ensures GenerateAsWritten(role, ids) == Padded(Prefix(role), k + 1)
  {
    var c := Prefix(role);
    var last := Padded(c, k);
    ParsePadded(k, 3);
    assert last[1..] == PadStart(NatToString(k), 3, '0');
    NextAfterParsed(c, last, k);
  }

  /** The corrected generator, once the greatest number in use is known. */
  lemma GenerateAfter(role: string, ids: seq<string>, c: char, n: nat)
    requires c == Prefix(role) && n == MaxNumber(ids, c) + 1
    ensures Generate(role, ids) == Padded(c, n)
  {
    assert Generate(role, ids) == NextId(ids, c);
  }

  /** While every prefixed ID is a padded number below 999, the greatest
      one in string order carries the greatest number. */
  lemma StringMaxIsNumericMax(ids: seq<string>, c: char, last: string, km: nat)
    requires forall x :: x in ids && HasPrefix(x, c) ==> exists k: nat :: k < 999 && x == Padded(c, k)
    requires last in ids && km < 999 && last == Padded(c, km)
    requires forall x :: x in ids && HasPrefix(x, c) ==> x == last || LexLess(x, last)
    ensures MaxNumber(ids, c) == km
  {
    PaddedNumber(c, km);
    forall x | x in ids && SuffixNumber(x, c).Some?
      ensures SuffixNumber(x, c).value <= km
    {
      NumberOfPaddedId(x, c, last, km);
    }
    MaxNumberIs(ids, c, last, km);
  }

  /** One prefixed ID at or below `last` in string order carries a number
      at or below `last`'s. */
  lemma NumberOfPaddedId(x: string, c: char, last: string, km: nat)
    requires HasPrefix(x, c) ==> exists k: nat :: k < 999 && x == Padded(c, k)
    requires km < 999 && last == Padded(c, km)
    requires HasPrefix(x, c) ==> x == last || LexLess(x, last)
    requires SuffixNumber(x, c).Some?
    ensures SuffixNumber(x, c).value <= km
  {
    var k: nat :| k < 999 && x == Padded(c, k);
    PaddedNumber(c, k);
    NotAboveStringMax(c, k, km);
  }

  /** A number in use that no number in use exceeds is the maximum. */
  lemma MaxNumberIs(ids: seq<string>, c: char, last: string, km: nat)
    requires last in ids && SuffixNumber(last, c) == Some(km)
    requires forall x :: x in ids && SuffixNumber(x, c).Some? ==> SuffixNumber(x, c).value <= km
    ensures MaxNumber(ids, c) == km
  {
  }

  /** A padded ID at or below another in string order carries a number at
      or below the other's. */
  lemma NotAboveStringMax(c: char, k: nat, km: nat)
    requires k < 999 && km < 999
    requires Padded(c, k) == Padded(c, km) || LexLess(Padded(c, k), Padded(c, km))
    ensures k <= km
  {
    var x := Padded(c, k);
    if k > km {
      PaddedOrder(c, km, k);
      PaddedNumber(c, k);
      PaddedNumber(c, km);
      if LexLess(x, Padded(c, km)) {
        LexTransitive(x, Padded(c, km), x);
        LexIrreflexive(x);
      }
    }
  }

  /** While every ID carrying the prefix is a padded rendering of a number
      below 999, the string order and the numeric order pick the same
      greatest ID, so the two generators agree: the discrepancy needs a
      four-digit ID. */
  lemma GeneratorsAgreeBelowThousand(role: string, ids: seq<string>)
    requires forall x :: x in ids && HasPrefix(x, Prefix(role)) ==>
               exists k: nat :: k < 999 && x == Padded(Prefix(role), k)
    ensures GenerateAsWritten(role, ids) == Generate(role, ids)
  {
    var c := Prefix(role);
    var candidates := WithPrefix(ids, c);
    if candidates == [] {
      assert forall x :: x in ids ==> SuffixNumber(x, c).None?;
    } else {
      var last := LexMax(candidates);
      var km: nat :| km < 999 && last == Padded(c, km);
      StringMaxIsNumericMax(ids, c, last, km);
      AsWrittenAfterPadded(role, ids, km);
      GenerateAfter(role, ids, c, km + 1);
    }
  }

  /** The maximum over two numbered IDs. */
  lemma MaxNumberOfTwo(a: string, b: string, c: char, ka: nat, kb: nat)
    requires SuffixNumber(a, c) == Some(ka) && SuffixNumber(b, c) == Some(kb)
    ensures MaxNumber([a, b], c) == if ka >= kb then ka else kb
  {
    assert [a, b][1..] == [b] && [b][1..] == [];
    assert MaxNumber([b], c) == kb;
  }

  lemma MaxNumberAfterE1000()
    ensures MaxNumber(["E999", "E1000"], 'E') == 1000
  {
    assert "E999"[1..] == "999" && "E1000"[1..] == "1000";
    Parse999();
    Parse1000();
    SuffixParsed("E999", 'E', 999);
    SuffixParsed("E1000", 'E', 1000);
    MaxNumberOfTwo("E999", "E1000", 'E', 999, 1000);
  }

  /** Numbers of three digits or more are not padded. */
  lemma PaddedOf(c: char, n: nat, d: string)
    requires NatToString(n) == d && |d| >= 3
    ensures Padded(c, n) == [c] + d
  {
    assert PadStart(d, 3, '0') == d;
  }

  lemma PaddedE1001()
    ensures Padded('E', 1001) == "E1001"
  {
    var d := NatToString(1001);
    Render1000();
    PaddedOf('E', 1001, d);
    assert ['E'] + d == "E1001";
  }

  /** The corrected generator steps past `E1000` where the written one
      repeats it. */
  lemma GenerateStepsPastE1000()
    ensures Generate(ExecutiveRole, ["E999", "E1000"]) == "E1001"
  {
    MaxNumberAfterE1000();
    PaddedE1001();
    assert Prefix(ExecutiveRole) == 'E';
  }
}
