/** Names of archived segments: `<file>.<seconds>.<nanoseconds>.<sequence>.segment`. */
module ArchiveName {
  function Digit(n: nat): char
    requires n < 10
  {
    "0123456789"[n]
  }

  /** `std::to_string` of an unsigned number. */
  function Decimal(n: nat): (s: string)
    ensures |s| > 0
  {
    if n < 10 then [Digit(n)] else Decimal(n / 10) + [Digit(n % 10)]
  }

  function Field(n: nat, rest: string): string { Decimal(n) + "." + rest }

  function Name(file: string, seconds: nat, nanoseconds: nat, sequence: nat): string {
    file + "." + Field(seconds, Field(nanoseconds, Field(sequence, "segment")))
  }

  predicate IsDigit(c: char) { '0' <= c <= '9' }

  /** The number that a string of digits denotes. */
  function Value(s: string): int {
    if s == "" then 0 else Value(s[..|s| - 1]) * 10 + (s[|s| - 1] as int - '0' as int)
  }

  /** The text is the decimal numeral of the number: digits only, none of them a leading zero. */
  lemma {:induction false} DecimalIsNumeral(n: nat)
    ensures Value(Decimal(n)) == n
    ensures forall i :: 0 <= i < |Decimal(n)| ==> IsDigit(Decimal(n)[i])
    ensures Decimal(n)[0] == '0' ==> n == 0 && Decimal(n) == "0"
  {
    var s := Decimal(n);
    assert Digit(n % 10) as int - '0' as int == n % 10;
    if n < 10 {
      assert Value(s[..0]) == 0;
    } else {
      DecimalIsNumeral(n / 10);
      assert s[..|s| - 1] == Decimal(n / 10) && s[0] == Decimal(n / 10)[0];
    }
  }

  /** The text of a name, spelled out. */
  lemma NameIsText(file: string, seconds: nat, nanoseconds: nat, sequence: nat)
    ensures Name(file, seconds, nanoseconds, sequence)
         == file + "." + Decimal(seconds) + "." + Decimal(nanoseconds) + "." + Decimal(sequence) + ".segment"
  {
    hide Decimal;
    var s, n, q := Decimal(seconds), Decimal(nanoseconds), Decimal(sequence);
    assert q + "." + "segment" == q + ".segment";
    assert n + "." + (q + ".segment") == n + "." + q + ".segment";
    assert s + "." + (n + "." + q + ".segment") == s + "." + n + "." + q + ".segment";
    assert file + "." + (s + "." + n + "." + q + ".segment")
        == file + "." + s + "." + n + "." + q + ".segment";
  }

  ghost predicate NoDot(s: string) { forall i :: 0 <= i < |s| ==> s[i] != '.' }

  lemma {:induction false} DecimalHasNoDot(n: nat)
    ensures NoDot(Decimal(n))
  {
    if n >= 10 {
      DecimalHasNoDot(n / 10);
    }
  }

  lemma DigitInjective(m: nat, n: nat)
    requires m < 10 && n < 10 && Digit(m) == Digit(n)
    ensures m == n
  {}

  lemma {:induction false} DecimalInjective(m: nat, n: nat)
    requires Decimal(m) == Decimal(n)
    ensures m == n
  {
    var s, t := Decimal(m), Decimal(n);
    assert s[|s| - 1] == Digit(m % 10) && t[|t| - 1] == Digit(n % 10);
    DigitInjective(m % 10, n % 10);
    if m >= 10 && n >= 10 {
      assert s[..|s| - 1] == Decimal(m / 10) && t[..|t| - 1] == Decimal(n / 10);
      DecimalInjective(m / 10, n / 10);
    }
  }

  /** Two strings that agree, each cut at its first dot, have equal parts. */
  lemma CutAtDot(a: string, x: string, b: string, y: string)
    requires NoDot(a) && NoDot(b) && a + "." + x == b + "." + y
    ensures a == b && x == y
  {
    var s := a + "." + x;
    assert s[|a|] == '.' && s[|b|] == '.';
    assert forall i :: 0 <= i < |a| ==> s[i] == a[i];
    assert forall i :: 0 <= i < |b| ==> s[i] == b[i];
    assert |a| == |b|;
    assert a == s[..|a|] == b;
    assert x == s[|a| + 1..] == y;
  }

  lemma FieldInjective(m: nat, x: string, n: nat, y: string)
    requires Field(m, x) == Field(n, y)
    ensures m == n && x == y
  {
    DecimalHasNoDot(m);
    DecimalHasNoDot(n);
    CutAtDot(Decimal(m), x, Decimal(n), y);
    DecimalInjective(m, n);
  }

  /** Two rotations of the same file get the same name exactly when clock reading and sequence number
      are the same. */
  lemma NameInjective(file: string, s1: nat, n1: nat, q1: nat, s2: nat, n2: nat, q2: nat)
    ensures Name(file, s1, n1, q1) == Name(file, s2, n2, q2) <==> s1 == s2 && n1 == n2 && q1 == q2
  {
    if Name(file, s1, n1, q1) == Name(file, s2, n2, q2) {
      var z1, z2 := Field(q1, "segment"), Field(q2, "segment");
      var y1, y2 := Field(n1, z1), Field(n2, z2);
      SameTail(file + ".", Field(s1, y1), Field(s2, y2));
      hide Field;
      FieldInjective(s1, y1, s2, y2);
      FieldInjective(n1, z1, n2, z2);
      FieldInjective(q1, "segment", q2, "segment");
    }
  }

  lemma SameTail(a: string, x: string, y: string)
    requires a + x == a + y
    ensures x == y
  {
    assert x == (a + x)[|a|..];
    assert y == (a + y)[|a|..];
  }

  /** An archive never takes the name of the active file. */
  lemma NameIsNotActive(file: string, seconds: nat, nanoseconds: nat, sequence: nat)
    ensures Name(file, seconds, nanoseconds, sequence) != file
    ensures |Name(file, seconds, nanoseconds, sequence)| > |file|
  {}

  // ------------------------------------------------------------- names that are free

  /** The readings that `clock_gettime` can give during a run. */
  type Clock = (nat, nat) -> bool

  /** None of `names` is one that a rotation can choose, from sequence number `first` on. */
  ghost predicate FreeFor(names: set<string>, file: string, first: nat, clock: Clock) {
    forall s: nat, n: nat, q: nat {:trigger Name(file, s, n, q)} ::
      clock(s, n) && q >= first ==> Name(file, s, n, q) !in names
  }

  /** The names in the directory after a rotation: the new archive, and the active file again. */
  ghost function Rotated(names: set<string>, file: string, s: nat, n: nat, q: nat): set<string> {
    names + {file, Name(file, s, n, q)}
  }

  /** A store never meets the archives it named itself. */
  lemma RotationKeepsFree(names: set<string>, file: string, s: nat, n: nat, q: nat, clock: Clock)
    requires FreeFor(names, file, q, clock)
    ensures FreeFor(Rotated(names, file, s, n, q), file, q + 1, clock)
  {
    forall s': nat, n': nat, q': nat {:trigger Name(file, s', n', q')} | clock(s', n') && q' >= q + 1
      ensures Name(file, s', n', q') !in Rotated(names, file, s, n, q)
    {
      NameInjective(file, s, n, q, s', n', q');
      NameIsNotActive(file, s', n', q');
      hide Name;
    }
  }

  /** Only archive names matter, and only later numbers. */
  lemma StillFree(names: set<string>, fewer: set<string>, file: string, first: nat, later: nat, clock: Clock)
    requires FreeFor(names, file, first, clock) && fewer <= names + {file} && first <= later
    ensures FreeFor(fewer, file, later, clock)
  {
    forall s: nat, n: nat, q: nat {:trigger Name(file, s, n, q)} | clock(s, n) && q >= later
      ensures Name(file, s, n, q) !in fewer
    {
      NameIsNotActive(file, s, n, q);
    }
  }

  /** One of the rotations at these clock readings, the first with number `q`, meets a name that is there. */
  ghost predicate Meets(names: set<string>, file: string, q: nat, readings: seq<(nat, nat)>)
    decreases |readings|
  {
    && readings != []
    && (var (s, n) := readings[0];
        Name(file, s, n, q) in names || Meets(Rotated(names, file, s, n, q), file, q + 1, readings[1..]))
  }

  ghost predicate Given(clock: Clock, readings: seq<(nat, nat)>) {
    forall i :: 0 <= i < |readings| ==> clock(readings[i].0, readings[i].1)
  }

  lemma {:induction false} FreeMeetsNothing(names: set<string>, file: string, q: nat, clock: Clock,
      readings: seq<(nat, nat)>)
    requires FreeFor(names, file, q, clock) && Given(clock, readings)
    ensures !Meets(names, file, q, readings)
    decreases |readings|
  {
    if readings != [] {
      var (s, n) := readings[0];
      RotationKeepsFree(names, file, s, n, q, clock);
      assert clock(readings[0].0, readings[0].1);
      FreeMeetsNothing(Rotated(names, file, s, n, q), file, q + 1, clock, readings[1..]);
      hide Name, Rotated;
    }
  }

  lemma {:induction false} MeetsInTheEnd(names: set<string>, file: string, first: nat, q: nat, s: nat, n: nat)
    requires first <= q && Name(file, s, n, q) in names
    ensures Meets(names, file, first, seq(q - first + 1, _ => (s, n)))
    decreases q - first
  {
    var readings := seq(q - first + 1, _ => (s, n));
    hide Name;
    if first < q {
      MeetsInTheEnd(Rotated(names, file, s, n, first), file, first + 1, q, s, n);
      assert readings[1..] == seq(q - first, _ => (s, n));
    }
  }

  /** Exactly when no archive name that the run could choose is there at its start, no run of rotations,
      however long and whatever the clock says, replaces a file. */
  lemma FreeIsExact(names: set<string>, file: string, first: nat, clock: Clock)
    ensures FreeFor(names, file, first, clock)
       <==> forall readings :: Given(clock, readings) ==> !Meets(names, file, first, readings)
  {
    if FreeFor(names, file, first, clock) {
      forall readings | Given(clock, readings)
        ensures !Meets(names, file, first, readings)
      {
        FreeMeetsNothing(names, file, first, clock, readings);
      }
    } else {
      var s: nat, n: nat, q: nat :| clock(s, n) && q >= first && Name(file, s, n, q) in names;
      MeetsInTheEnd(names, file, first, q, s, n);
      assert Given(clock, seq(q - first + 1, _ => (s, n)));
    }
  }

  predicate Before(s: nat, n: nat, start: (nat, nat)) { s < start.0 || (s == start.0 && n < start.1) }

  /** A clock that is not set back is enough: every archive that is there carries a reading from before
      the start of this run, and this run's readings are not before it. */
  lemma ClockNotSetBack(names: set<string>, file: string, start: (nat, nat), clock: Clock)
    requires forall s: nat, n: nat, q: nat {:trigger Name(file, s, n, q)} :: Name(file, s, n, q) in names ==>
      Before(s, n, start)
    requires forall s: nat, n: nat :: clock(s, n) ==> !Before(s, n, start)
    ensures FreeFor(names, file, 0, clock)
  {}
}
