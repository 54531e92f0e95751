/** nextMigrationVersion (cmd/migrate.go): today's date and the next six-digit sequence
    number, from the file names in the migrations directory. */
module Migration {
  import opened Basics

  datatype DirEntry = DirEntry(name: string, isDir: bool)

  const LAST_SEQUENCE := 999999

  function Pow10(w: nat): nat { if w == 0 then 1 else 10 * Pow10(w - 1) }

  /** The last w decimal digits of n. */
  function Digits(n: nat, w: nat): (s: string)
    ensures |s| == w && AllDigits(s)
  {
    if w == 0 then "" else Digits(n / 10, w - 1) + ['0' + (n % 10) as char]
  }

  function Decimal(n: nat): string {
    if n < 10 then ['0' + n as char] else Decimal(n / 10) + ['0' + (n % 10) as char]
  }

  /** fmt.Sprintf("%06d", n). */
  function SixDigits(n: nat): string {
    if n <= LAST_SEQUENCE then Digits(n, 6) else Decimal(n)
  }

  /** strconv.Atoi: an optional sign, then at least one digit. */
  function Atoi(s: string): Option<int> {
    if s != "" && (s[0] == '+' || s[0] == '-') then
      if |s| > 1 && AllDigits(s[1..]) then Some(if s[0] == '-' then -(Value(s[1..]) as int) else Value(s[1..]) as int) else None
    else if s != "" && AllDigits(s) then Some(Value(s))
    else None
  }

  predicate HasSuffix(s: string, suffix: string) {
    |suffix| <= |s| && s[|s| - |suffix|..] == suffix
  }

  /** The sequence number a directory entry counts with, if it counts at all. */
  function Sequence(e: DirEntry, today: string): Option<int> {
    if e.isDir || !HasSuffix(e.name, ".sql") || !(today <= e.name) || |e.name| < 14 then None
    else Atoi(e.name[8..14])
  }

  /** The highest sequence number counted, or zero. */
  function Highest(entries: seq<DirEntry>, today: string): nat {
    if entries == [] then 0 else
      var before := Highest(entries[..|entries| - 1], today);
      var found := Sequence(entries[|entries| - 1], today);
      if found.Some? && found.value > before then found.value else before
  }

  lemma {:induction false} HighestIsMaximum(entries: seq<DirEntry>, today: string)
    ensures forall i | 0 <= i < |entries| :: Sequence(entries[i], today).Some? ==> Sequence(entries[i], today).value <= Highest(entries, today)
    ensures Highest(entries, today) == 0 || exists i | 0 <= i < |entries| :: Sequence(entries[i], today) == Some(Highest(entries, today))
  {
    if entries != [] {
      var shorter := entries[..|entries| - 1];
      HighestIsMaximum(shorter, today);
      assert forall i | 0 <= i < |shorter| :: shorter[i] == entries[i];
    }
  }

  /** The version that creating a migration gives it. */
  function NextVersion(entries: seq<DirEntry>, today: string): string {
    today + SixDigits(Highest(entries, today) + 1)
  }

  /** Directories, other files and other days' migrations make no difference. */
  lemma OthersDoNotCount(entries: seq<DirEntry>, e: DirEntry, today: string)
    requires e.isDir || |e.name| < 14 || e.name[|e.name| - 4..] != ".sql" || !(today <= e.name)
    ensures Highest(entries + [e], today) == Highest(entries, today)
  {
    assert (entries + [e])[..|entries|] == entries;
  }

  /** A sequence text is six digits, or a sign and five. */
  lemma AtoiByValue(s: string)
    requires |s| == 6
    ensures AllDigits(s) ==> Atoi(s) == Some(Value(s))
    ensures s[0] == '+' && AllDigits(s[1..]) ==> Atoi(s) == Some(Value(s[1..]))
    ensures s[0] == '-' && AllDigits(s[1..]) ==> Atoi(s) == Some(-(Value(s[1..]) as int))
    ensures !AllDigits(s) && !(s[0] in {'+', '-'} && AllDigits(s[1..])) ==> Atoi(s) == None
  {}

  method NextMigrationVersion(entries: seq<DirEntry>, today: string) returns (version: string)
    ensures version == NextVersion(entries, today)
  {
    var max: nat := 0;
    for i := 0 to |entries|
      invariant max == Highest(entries[..i], today)
    {
      assert entries[..i + 1][..i] == entries[..i];
      var e := entries[i];
      if e.isDir || !HasSuffix(e.name, ".sql") { continue; }
      if !(today <= e.name) { continue; }
      if |e.name| < 14 { continue; }
      var found := Atoi(e.name[8..14]);
      if found.None? { continue; }
      if found.value > max { max := found.value; }
    }
    assert entries[..|entries|] == entries;
    version := today + SixDigits(max + 1);
  }

  /* ---------- byte order ---------- */

  /** Lexicographic order on bytes. */
  ghost predicate Less(s: string, t: string) {
    exists k :: 0 <= k <= |s| && k < |t| && s[..k] == t[..k] && (k == |s| || s[k] < t[k])
  }

  lemma LessWithPrefix(p: string, s: string, t: string)
    requires Less(s, t)
    ensures Less(p + s, p + t)
  {
    var k :| 0 <= k <= |s| && k < |t| && s[..k] == t[..k] && (k == |s| || s[k] < t[k]);
    assert (p + s)[..|p| + k] == p + s[..k] && (p + t)[..|p| + k] == p + t[..k];
  }

  lemma {:induction false} DigitsInOrder(a: nat, b: nat, w: nat)
    requires a < b < Pow10(w)
    ensures Less(Digits(a, w), Digits(b, w))
  {
    var s, t := Digits(a, w), Digits(b, w);
    if a / 10 < b / 10 {
      DigitsInOrder(a / 10, b / 10, w - 1);
      var p, q := Digits(a / 10, w - 1), Digits(b / 10, w - 1);
      var k :| 0 <= k <= |p| && k < |q| && p[..k] == q[..k] && (k == |p| || p[k] < q[k]);
      assert s[..k] == p[..k] && t[..k] == q[..k];
    } else {
      assert s[..w - 1] == t[..w - 1];
    }
  }

  lemma {:induction false} ValueOfDigits(n: nat, w: nat)
    requires n < Pow10(w)
    ensures Value(Digits(n, w)) == n
  {
    if w > 0 {
      ValueOfDigits(n / 10, w - 1);
      assert Digits(n, w)[..w - 1] == Digits(n / 10, w - 1);
    }
  }

  lemma {:induction false} DigitsOfValue(s: string)
    requires AllDigits(s)
    ensures Value(s) < Pow10(|s|) && Digits(Value(s), |s|) == s
  {
    if s != "" {
      DigitsOfValue(s[..|s| - 1]);
      assert s == s[..|s| - 1] + [s[|s| - 1]];
    }
  }

  lemma SixDigitBound()
    ensures Pow10(5) == 100000 && Pow10(6) == 1000000
  {
    assert Pow10(1) == 10 && Pow10(2) == 100 && Pow10(3) == 1000;
    assert Pow10(4) == 10000;
  }

  /** Any counted sequence text of at most `max` comes before the digits of max + 1; a
      signed one does because both signs come before every digit. */
  lemma CountedTextIsLess(s: string, max: nat)
    requires |s| == 6 && Atoi(s).Some? && Atoi(s).value <= max < LAST_SEQUENCE
    ensures Less(s, Digits(max + 1, 6))
  {
    SixDigitBound();
    var t := Digits(max + 1, 6);
    if AllDigits(s) {
      DigitsOfValue(s);
      DigitsInOrder(Value(s), max + 1, 6);
    } else {
      assert Digit(t[0]);
      assert s[..0] == t[..0] && s[0] < t[0];
    }
  }

  /* ---------- repeated creation ---------- */

  /** The entry that creating a migration adds. */
  function Created(version: string, slug: string): DirEntry {
    DirEntry(version + "_" + slug + ".sql", false)
  }

  lemma NameIsLess(name: string, today: string, max: nat)
    requires |today| == 8 && today <= name && |name| >= 14 && max < LAST_SEQUENCE
    requires Atoi(name[8..14]).Some? && Atoi(name[8..14]).value <= max
    ensures Less(name[..14], today + SixDigits(max + 1))
  {
    CountedTextIsLess(name[8..14], max);
    assert name[..14] == today + name[8..14];
    LessWithPrefix(today, name[8..14], Digits(max + 1, 6));
  }

  lemma VersionsInOrder(today: string, a: nat, b: nat, v: string, w: string)
    requires a < b <= LAST_SEQUENCE && v == today + SixDigits(a) && w == today + SixDigits(b)
    ensures Less(v, w)
  {
    SixDigitBound();
    DigitsInOrder(a, b, 6);
    LessWithPrefix(today, Digits(a, 6), Digits(b, 6));
  }

  /** The directory after creating one migration per slug. */
  function CreateAll(entries: seq<DirEntry>, today: string, slugs: seq<string>): seq<DirEntry>
    decreases |slugs|
  {
    if slugs == [] then entries else
      CreateAll(entries + [Created(NextVersion(entries, today), slugs[0])], today, slugs[1..])
  }

  lemma CreatedSequence(today: string, n: nat, slug: string)
    requires |today| == 8 && n <= LAST_SEQUENCE
    ensures Sequence(Created(today + SixDigits(n), slug), today) == Some(n)
  {
    SixDigitBound();
    CreatedCounts(today, Digits(n, 6), slug);
    ValueOfDigits(n, 6);
    assert Digits(n, 6)[..6] == Digits(n, 6);
  }

  lemma HigherEntryCounts(entries: seq<DirEntry>, e: DirEntry, today: string, n: nat)
    requires Sequence(e, today) == Some(n) && n > Highest(entries, today)
    ensures Highest(entries + [e], today) == n
  {
    assert (entries + [e])[..|entries|] == entries;
  }

  lemma CreationAdvances(entries: seq<DirEntry>, today: string, slug: string)
    requires |today| == 8 && Highest(entries, today) < LAST_SEQUENCE
    ensures Highest(entries + [Created(NextVersion(entries, today), slug)], today) == Highest(entries, today) + 1
  {
    var n := Highest(entries, today) + 1;
    CreatedSequence(today, n, slug);
    HigherEntryCounts(entries, Created(today + SixDigits(n), slug), today, n);
  }

  /** Repeated creation on one day counts up by one each time, up to 999999. */
  lemma {:induction false} RepeatedCreationCountsUp(entries: seq<DirEntry>, today: string, slugs: seq<string>)
    requires |today| == 8 && Highest(entries, today) + |slugs| <= LAST_SEQUENCE
    ensures Highest(CreateAll(entries, today, slugs), today) == Highest(entries, today) + |slugs|
    decreases |slugs|
  {
    if slugs != [] {
      CreationAdvances(entries, today, slugs[0]);
      RepeatedCreationCountsUp(entries + [Created(NextVersion(entries, today), slugs[0])], today, slugs[1..]);
    }
  }

  /** A new version comes after the version of every entry counted, in byte order, as
      long as the day's sequence numbers last. */
  lemma NextComesAfterCounted(entries: seq<DirEntry>, today: string, i: nat, max: nat)
    requires |today| == 8 && max == Highest(entries, today) < LAST_SEQUENCE
    requires i < |entries| && Sequence(entries[i], today).Some?
    ensures Less(entries[i].name[..14], today + SixDigits(max + 1))
  {
    HighestIsMaximum(entries, today);
    NameIsLess(entries[i].name, today, max);
  }

  /** A sign leaves room for five digits. */
  lemma SignedTextIsSmall(s: string)
    requires |s| == 6 && Atoi(s).Some? && !AllDigits(s)
    ensures Atoi(s).value < 100000
  {
    SixDigitBound();
    DigitsOfValue(s[1..]);
  }

  /** No entry counts past 999999. */
  lemma SequenceIsBounded(e: DirEntry, today: string)
    requires Sequence(e, today).Some?
    ensures Sequence(e, today).value <= LAST_SEQUENCE
  {
    var s := e.name[8..14];
    if AllDigits(s) {
      SixDigitBound();
      DigitsOfValue(s);
    } else {
      SignedTextIsSmall(s);
    }
  }

  lemma {:induction false} HighestIsBounded(entries: seq<DirEntry>, today: string)
    ensures Highest(entries, today) <= LAST_SEQUENCE
  {
    if entries != [] {
      HighestIsBounded(entries[..|entries| - 1], today);
      var e := entries[|entries| - 1];
      if Sequence(e, today).Some? { SequenceIsBounded(e, today); }
    }
  }

  lemma TopDigitIsNine(s: string)
    requires |s| == 6 && AllDigits(s) && Value(s) == LAST_SEQUENCE
    ensures s[0] == '9'
  {
    var s5, s4, s3, s2, s1 := s[..5], s[..5][..4], s[..5][..4][..3], s[..5][..4][..3][..2], s[..5][..4][..3][..2][..1];
    assert Value(s) == Value(s5) * 10 + (s[5] - '0') as nat;
    assert Value(s5) == Value(s4) * 10 + (s5[4] - '0') as nat;
    assert Value(s4) == Value(s3) * 10 + (s4[3] - '0') as nat;
    assert Value(s3) == Value(s2) * 10 + (s3[2] - '0') as nat;
    assert Value(s2) == Value(s1) * 10 + (s2[1] - '0') as nat;
    assert s1 == [s[0]] && s1[..0] == "";
    assert Value(s1) == (s[0] - '0') as nat;
  }

  /** What counts as 999999 comes after "1000000". */
  lemma LastSequenceIsNotLess(name: string, today: string)
    requires |today| == 8 && today <= name && |name| >= 14
    requires Atoi(name[8..14]) == Some(LAST_SEQUENCE)
    ensures !Less(name[..14], today + "1000000")
  {
    var s, t, u := name[8..14], name[..14], today + "1000000";
    if !AllDigits(s) { SignedTextIsSmall(s); }
    TopDigitIsNine(s);
    assert t[8] == '9' && u[8] == '1' && t[..8] == today == u[..8];
    assert forall k | 0 <= k < 8 :: t[k] == t[..8][k] == u[..8][k] == u[k];
    assert forall k | 8 < k <= 14 :: t[..k][8] != u[..k][8];
  }

  lemma LastIsReached(entries: seq<DirEntry>, today: string) returns (i: nat)
    requires Highest(entries, today) == LAST_SEQUENCE
    ensures i < |entries| && Sequence(entries[i], today) == Some(LAST_SEQUENCE)
  {
    HighestIsMaximum(entries, today);
    i :| 0 <= i < |entries| && Sequence(entries[i], today) == Some(LAST_SEQUENCE);
  }

  lemma NextAfterLast(max: nat)
    requires max == LAST_SEQUENCE
    ensures SixDigits(max + 1) == "1000000"
  {
    MillionInDecimal();
  }

  /** `version` comes after the version of every entry counted. */
  ghost predicate ComesLast(entries: seq<DirEntry>, today: string, version: string) {
    forall i | 0 <= i < |entries| && Sequence(entries[i], today).Some? :: Less(entries[i].name[..14], version)
  }

  lemma BelowTheLast(entries: seq<DirEntry>, today: string, max: nat, version: string)
    requires |today| == 8 && max == Highest(entries, today) < LAST_SEQUENCE && version == today + SixDigits(max + 1)
    ensures ComesLast(entries, today, version)
  {
    forall i | 0 <= i < |entries| && Sequence(entries[i], today).Some?
      ensures Less(entries[i].name[..14], version)
    {
      NextComesAfterCounted(entries, today, i, max);
    }
  }

  lemma AtTheLast(entries: seq<DirEntry>, today: string, version: string)
    requires |today| == 8 && Highest(entries, today) == LAST_SEQUENCE && version == today + "1000000"
    ensures !ComesLast(entries, today, version)
  {
    var i := LastIsReached(entries, today);
    LastSequenceIsNotLess(entries[i].name, today);
  }

  lemma NextBelowTheLast(entries: seq<DirEntry>, today: string)
    requires |today| == 8 && Highest(entries, today) < LAST_SEQUENCE
    ensures ComesLast(entries, today, NextVersion(entries, today))
  {
    BelowTheLast(entries, today, Highest(entries, today), NextVersion(entries, today));
  }

  lemma NextAtTheLast(entries: seq<DirEntry>, today: string)
    requires |today| == 8 && Highest(entries, today) == LAST_SEQUENCE
    ensures !ComesLast(entries, today, NextVersion(entries, today))
  {
    NextAfterLast(Highest(entries, today));
    AtTheLast(entries, today, NextVersion(entries, today));
  }

  /** The next version comes last exactly while the day's sequence numbers last. */
  lemma NextComesLastIff(entries: seq<DirEntry>, today: string)
    requires |today| == 8
    ensures ComesLast(entries, today, NextVersion(entries, today)) <==> Highest(entries, today) < 999999
  {
    HighestIsBounded(entries, today);
    if Highest(entries, today) < LAST_SEQUENCE { NextBelowTheLast(entries, today); } else { NextAtTheLast(entries, today); }
  }

  /** So the versions handed out on one day are strictly increasing in byte order. */
  lemma LaterCreationsComeLater(entries: seq<DirEntry>, today: string, slugs: seq<string>)
    requires |today| == 8 && slugs != [] && Highest(entries, today) + |slugs| < LAST_SEQUENCE
    ensures Less(NextVersion(entries, today), NextVersion(CreateAll(entries, today, slugs), today))
  {
    RepeatedCreationCountsUp(entries, today, slugs);
    LaterVersion(entries, CreateAll(entries, today, slugs), today);
  }

  lemma LaterVersion(entries: seq<DirEntry>, later: seq<DirEntry>, today: string)
    requires Highest(entries, today) < Highest(later, today) < LAST_SEQUENCE
    ensures Less(NextVersion(entries, today), NextVersion(later, today))
  {
    VersionsInOrder(today, Highest(entries, today) + 1, Highest(later, today) + 1, NextVersion(entries, today), NextVersion(later, today));
  }

  lemma CreatedCounts(today: string, digits: string, slug: string)
    requires |today| == 8 && |digits| >= 6 && AllDigits(digits)
    ensures Sequence(Created(today + digits, slug), today) == Some(Value(digits[..6]))
  {
    var name := today + digits + "_" + slug + ".sql";
    assert name == Created(today + digits, slug).name;
    assert name[8..14] == digits[..6];
    assert name[|name| - 4..] == ".sql";
    assert today <= name;
  }

  /** The bound is tight: at 999999 the next version has seven digits, is read back as
      100000, and is produced again and again. */
  lemma PastTheLastSequenceItRepeats(entries: seq<DirEntry>, today: string, slug: string)
    requires |today| == 8 && Highest(entries, today) == LAST_SEQUENCE
    ensures NextVersion(entries, today) == today + "1000000"
    ensures Highest(entries + [Created(NextVersion(entries, today), slug)], today) == LAST_SEQUENCE
  {
    NextAfterLast(Highest(entries, today));
    CreatedCounts(today, "1000000", slug);
    DigitsOfValue("1000000"[..6]);
    SixDigitBound();
    assert (entries + [Created(today + "1000000", slug)])[..|entries|] == entries;
  }

  lemma MillionInDecimal()
    ensures Decimal(1000000) == "1000000"
  {
    assert Decimal(1) == "1";
    assert Decimal(10) == "10";
    assert Decimal(100) == "100";
    assert Decimal(1000) == "1000";
    assert Decimal(10000) == "10000";
    assert Decimal(100000) == "100000";
  }
}
