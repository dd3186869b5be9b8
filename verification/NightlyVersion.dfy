/** Nightly version numbers (scripts/nightly/version.ts): parsing, comparing, and the next number. */
module NightlyVersion {
  import opened Common
  import opened Text

  datatype Base = Base(major: nat, minor: nat, patch: nat)

  datatype Nightly = Nightly(base: Base, build: nat)

  // ---------------------------------------------------------------- text

  /** The characters JavaScript's `trim` removes. */
  predicate IsJsSpace(c: char) {
    (IsWhitespace(c) && c != '\U{85}') || c == '\U{FEFF}'
  }

  function JsTrimStart(s: string): string {
    if s != "" && IsJsSpace(s[0]) then JsTrimStart(s[1..]) else s
  }

  function JsTrimEnd(s: string): string {
    if s != "" && IsJsSpace(s[|s| - 1]) then JsTrimEnd(s[..|s| - 1]) else s
  }

  /** The version without surrounding space and one leading `v`. */
  function Clean(v: string): string {
    var t := JsTrimEnd(JsTrimStart(v));
    if t != "" && t[0] == 'v' then t[1..] else t
  }

  function DigitCount(s: string): (n: nat)
    ensures n <= |s|
    ensures AllDigits(s[..n])
    ensures n < |s| ==> !IsDigit(s[n])
  {
    if s == "" || !IsDigit(s[0]) then 0
    else
      var n := DigitCount(s[1..]);
      assert s[..n + 1] == [s[0]] + s[1..][..n];
      n + 1
  }

  /** A decimal number at the start, and the rest. */
  function ReadNumber(s: string): Option<(nat, string)> {
    var n := DigitCount(s);
    if n == 0 then None else Some((Value(s[..n]), s[n..]))
  }

  /** `X.Y.Z` at the start, and the rest. */
  function ReadBase(s: string): Option<(Base, string)> {
    match ReadNumber(s)
    case None => None
    case Some((major, s1)) =>
      if s1 == "" || s1[0] != '.' then None
      else
        match ReadNumber(s1[1..])
        case None => None
        case Some((minor, s2)) =>
          if s2 == "" || s2[0] != '.' then None
          else
            match ReadNumber(s2[1..])
            case None => None
            case Some((patch, rest)) => Some((Base(major, minor, patch), rest))
  }

  const MARK := "-nightly."

  /** `X.Y.Z-nightly.N` and nothing else, after cleaning. */
  function ParseNightly(v: string): Option<Nightly> {
    match ReadBase(Clean(v))
    case None => None
    case Some((base, rest)) =>
      if !HasPrefix(rest, MARK) then None
      else
        match ReadNumber(rest[|MARK|..])
        case Some((build, "")) => Some(Nightly(base, build))
        case _ => None
  }

  /** `X.Y.Z` at the start, whatever follows. */
  function ParseBase(v: string): Option<Base> {
    match ReadBase(Clean(v))
    case None => None
    case Some((base, _)) => Some(base)
  }

  // ---------------------------------------------------------------- order

  predicate Below(a: Base, b: Base) {
    a.major < b.major || (a.major == b.major && (a.minor < b.minor || (a.minor == b.minor && a.patch < b.patch)))
  }

  predicate Older(a: Nightly, b: Nightly) {
    Below(a.base, b.base) || (a.base == b.base && a.build < b.build)
  }

  function Difference(a: Base, b: Base): int {
    if a.major != b.major then a.major - b.major
    else if a.minor != b.minor then a.minor - b.minor
    else a.patch - b.patch
  }

  function CompareBases(a: string, b: string): int {
    var pa, pb := ParseBase(a), ParseBase(b);
    if pa.None? || pb.None? then 0 else Difference(pa.value, pb.value)
  }

  function Compare(a: Option<Nightly>, b: Option<Nightly>): int {
    if a.None? && b.None? then 0
    else if a.None? then -1
    else if b.None? then 1
    else if a.value.base != b.value.base then Difference(a.value.base, b.value.base)
    else a.value.build - b.value.build
  }

  function CompareNightlies(a: string, b: string): int {
    Compare(ParseNightly(a), ParseNightly(b))
  }

  /** The comparator is the order: among nightlies it decides which is newer, and anything else comes
      before every nightly. */
  lemma ComparesByOrder(a: Option<Nightly>, b: Option<Nightly>)
    ensures Compare(a, b) > 0 <==> a.Some? && (b.None? || Older(b.value, a.value))
    ensures Compare(a, b) < 0 <==> Compare(b, a) > 0
    ensures Compare(a, b) == 0 <==> a == b
  {
  }

  // ---------------------------------------------------------------- the highest nightly

  /** The newest nightly of a list. */
  function Newest(ns: seq<Nightly>): (best: Option<Nightly>)
    ensures best.None? <==> ns == []
    ensures best.Some? ==> best.value in ns && forall n :: n in ns ==> !Older(best.value, n)
  {
    if ns == [] then None
    else
      var last := ns[|ns| - 1];
      var best := Newest(ns[..|ns| - 1]);
      assert ns == ns[..|ns| - 1] + [last];
      if best.None? || Older(best.value, last) then Some(last) else best
  }

  /** Nothing but its members decides the newest nightly of a list. */
  lemma NewestByMembers(ns: seq<Nightly>, best: Nightly)
    requires best in ns && forall n :: n in ns ==> !Older(best, n)
    ensures Newest(ns) == Some(best)
  {
    var other := Newest(ns).value;
    assert !Older(other, best) && !Older(best, other);
  }

  /** What each tag means; most are no nightlies. */
  function Meanings(tags: seq<string>): (ms: seq<Option<Nightly>>)
    ensures |ms| == |tags| && forall k :: 0 <= k < |tags| ==> ms[k] == ParseNightly(tags[k])
  {
    seq(|tags|, k requires 0 <= k < |tags| => ParseNightly(tags[k]))
  }

  function Nightlies(tags: seq<string>): seq<Nightly> {
    Somes(Meanings(tags))
  }

  lemma NightliesAreTagged(tags: seq<string>, n: Nightly)
    ensures n in Nightlies(tags) <==> exists t :: t in tags && ParseNightly(t) == Some(n)
  {
    SomesAreThere(Meanings(tags), n);
    if t :| t in tags && ParseNightly(t) == Some(n) {
      var k :| 0 <= k < |tags| && tags[k] == t;
      assert Meanings(tags)[k] == Some(n);
    }
  }

  /** The base in its plain spelling. */
  function Dotted(b: Base): string {
    Decimal(b.major) + ("." + (Decimal(b.minor) + ("." + Decimal(b.patch))))
  }

  // ---------------------------------------------------------------- the next version

  /** The part of a version before its first dash. */
  function Stem(v: string): string {
    Before(Clean(v), '-')
  }

  function CommitStem(main: string, commit: Option<string>): string {
    if commit.Some? && commit.value != "" then Stem(commit.value) else Stem(main)
  }

  /** The base the next nightly carries. */
  function Target(main: string, commit: string, highest: Option<string>): string {
    var target := if highest.Some? && CompareBases(highest.value, main) > 0 then highest.value else main;
    if CompareBases(commit, target) > 0 then commit else target
  }

  function BuildNumber(target: string, highest: Option<string>, build: nat, run: Option<int>): (next: nat)
    ensures next >= 1
  {
    var next := if highest.Some? && CompareBases(target, highest.value) == 0 then build + 1 else 1;
    if run.Some? && run.value != 0 && run.value >= next then run.value else next
  }

  function Format(target: string, build: nat): string {
    target + (MARK + Decimal(build))
  }

  function NightlyTag(version: string): string {
    "v" + Clean(version)
  }

  /** The highest base among the nightlies as text, and the highest build seen with it. */
  function HighestBase(newest: Option<Nightly>): Option<string> {
    if newest.None? then None else Some(Dotted(newest.value.base))
  }

  function HighestBuild(newest: Option<Nightly>): nat {
    if newest.None? then 0 else newest.value.build
  }

  /** The next version, when `newest` is the newest nightly. */
  function NextAfter(main: string, commit: Option<string>, newest: Option<Nightly>, run: Option<int>): string {
    var target := Target(Stem(main), CommitStem(main, commit), HighestBase(newest));
    Format(target, BuildNumber(target, HighestBase(newest), HighestBuild(newest), run))
  }

  /** The next version from the bases, the tags and the run number. */
  function NextVersion(main: string, commit: Option<string>, tags: seq<string>, run: Option<int>): string {
    NextAfter(main, commit, Newest(Nightlies(tags)), run)
  }

  lemma NewestGrows(ns: seq<Nightly>, i: nat)
    requires i < |ns|
    ensures Newest(ns[..i + 1]) == (var best := Newest(ns[..i]);
                                    if best.None? || Older(best.value, ns[i]) then Some(ns[i]) else best)
  {
    assert ns[..i + 1][..i] == ns[..i];
  }

  /** One more nightly against the highest base and build so far. */
  function Raise(highest: Option<string>, build: nat, n: Nightly): (Option<string>, nat) {
    var base := Dotted(n.base);
    if highest.None? || CompareBases(base, highest.value) > 0 then (Some(base), n.build)
    else if CompareBases(base, highest.value) == 0 then (highest, if n.build > build then n.build else build)
    else (highest, build)
  }

  lemma RaisedExactly(best: Option<Nightly>, n: Nightly)
    ensures var next := if best.None? || Older(best.value, n) then Some(n) else best;
      Raise(HighestBase(best), HighestBuild(best), n) == (HighestBase(next), HighestBuild(next))
  {
    if best.Some? {
      DottedCompares(n.base, best.value.base);
    }
  }

  /** Walks the nightlies once, keeping the highest base as text. */
  method Highest(ns: seq<Nightly>) returns (highest: Option<string>, build: nat)
    ensures highest == HighestBase(Newest(ns)) && build == HighestBuild(Newest(ns))
  {
    highest, build := None, 0;
    var i := 0;
    while i < |ns|
      invariant 0 <= i <= |ns|
      invariant highest == HighestBase(Newest(ns[..i])) && build == HighestBuild(Newest(ns[..i]))
    {
      NewestGrows(ns, i);
      RaisedExactly(Newest(ns[..i]), ns[i]);
      var raised := Raise(highest, build, ns[i]);
      highest, build := raised.0, raised.1;
      i := i + 1;
    }
    assert ns[..|ns|] == ns;
  }

  method CalculateNext(main: string, commit: Option<string>, tags: seq<string>, run: Option<int>) returns (version: string, tag: string)
    ensures version == NextVersion(main, commit, tags, run) && tag == NightlyTag(version)
  {
    var highest, build := Highest(Nightlies(tags));
    var target := Target(Stem(main), CommitStem(main, commit), highest);
    version := Format(target, BuildNumber(target, highest, build, run));
    tag := NightlyTag(version);
  }

  // ---------------------------------------------------------------- texts that are exactly a base

  /** Exactly `X.Y.Z`. */
  predicate IsBase(s: string) {
    var r := ReadBase(s);
    r.Some? && r.value.1 == ""
  }

  function BaseOf(s: string): Base
    requires IsBase(s)
  {
    ReadBase(s).value.0
  }

  predicate StartsNoDigit(s: string) {
    s == "" || !IsDigit(s[0])
  }

  lemma {:induction false} DigitsCounted(a: string, rest: string)
    requires AllDigits(a) && StartsNoDigit(rest)
    ensures DigitCount(a + rest) == |a|
    decreases |a|
  {
    if a != "" {
      assert (a + rest)[1..] == a[1..] + rest;
      DigitsCounted(a[1..], rest);
    } else {
      assert a + rest == rest;
    }
  }

  lemma NumberReads(a: string, rest: string)
    requires a != "" && AllDigits(a) && StartsNoDigit(rest)
    ensures ReadNumber(a + rest) == Some((Value(a), rest))
  {
    DigitsCounted(a, rest);
    assert (a + rest)[..|a|] == a && (a + rest)[|a|..] == rest;
  }

  /** A number that was read, as digits followed by the rest. */
  lemma NumberWritten(s: string)
    requires ReadNumber(s).Some?
    ensures var n := DigitCount(s);
      s[..n] != "" && AllDigits(s[..n]) && s == s[..n] + s[n..] && StartsNoDigit(s[n..])
      && ReadNumber(s) == Some((Value(s[..n]), s[n..]))
  {
  }

  /** Three numbers joined by dots are read as a base, whatever follows. */
  lemma PartsRead(x: string, y: string, z: string, rest: string)
    requires x != "" && AllDigits(x) && y != "" && AllDigits(y) && z != "" && AllDigits(z) && StartsNoDigit(rest)
    ensures ReadBase(x + ("." + (y + ("." + (z + rest))))) == Some((Base(Value(x), Value(y), Value(z)), rest))
  {
    var s2 := "." + (z + rest);
    var s1 := "." + (y + s2);
    NumberReads(x, s1);
    assert s1[1..] == y + s2 && s2[1..] == z + rest;
    NumberReads(y, s2);
    NumberReads(z, rest);
  }

  lemma DotRest(s: string)
    requires s != "" && s[0] == '.'
    ensures s == "." + s[1..]
  {
  }

  /** A base that was read, taken apart: three numbers joined by dots, then what is left. */
  lemma BaseParts(s: string) returns (x: string, y: string, z: string)
    requires ReadBase(s).Some?
    ensures x != "" && AllDigits(x) && y != "" && AllDigits(y) && z != "" && AllDigits(z)
    ensures StartsNoDigit(ReadBase(s).value.1)
    ensures s == x + ("." + (y + ("." + (z + ReadBase(s).value.1))))
    ensures ReadBase(s).value.0 == Base(Value(x), Value(y), Value(z))
  {
    NumberWritten(s);
    var s1 := ReadNumber(s).value.1;
    DotRest(s1);
    NumberWritten(s1[1..]);
    var s2 := ReadNumber(s1[1..]).value.1;
    DotRest(s2);
    NumberWritten(s2[1..]);
    x, y, z := s[..DigitCount(s)], s1[1..][..DigitCount(s1[1..])], s2[1..][..DigitCount(s2[1..])];
  }

  /** More text after an exact base is left over. */
  lemma BaseReads(s: string, rest: string)
    requires IsBase(s) && StartsNoDigit(rest)
    ensures ReadBase(s + rest) == Some((BaseOf(s), rest))
    ensures s != "" && IsDigit(s[0]) && IsDigit(s[|s| - 1])
  {
    var x, y, z := BaseParts(s);
    assert z + "" == z;
    PartsRead(x, y, z, rest);
    Regroup(x, "." + (y + ("." + z)), rest);
    Regroup(".", y + ("." + z), rest);
    Regroup(y, "." + z, rest);
    Regroup(".", z, rest);
    assert s[|s| - 1] == z[|z| - 1];
  }

  lemma CleanIsNothing(s: string)
    requires s != "" && IsDigit(s[0]) && IsDigit(s[|s| - 1])
    ensures Clean(s) == s
  {
  }

  lemma ExactBaseParses(s: string)
    requires IsBase(s)
    ensures ParseBase(s) == Some(BaseOf(s))
  {
    BaseReads(s, "");
    assert s + "" == s;
    CleanIsNothing(s);
  }

  lemma DottedIsBase(b: Base)
    ensures IsBase(Dotted(b)) && BaseOf(Dotted(b)) == b
  {
    DecimalRoundTrip(b.major);
    DecimalRoundTrip(b.minor);
    DecimalRoundTrip(b.patch);
    PartsRead(Decimal(b.major), Decimal(b.minor), Decimal(b.patch), "");
    assert Decimal(b.patch) + "" == Decimal(b.patch);
  }

  lemma DottedCompares(a: Base, b: Base)
    ensures CompareBases(Dotted(a), Dotted(b)) == Difference(a, b)
  {
    DottedIsBase(a);
    DottedIsBase(b);
    ExactBaseParses(Dotted(a));
    ExactBaseParses(Dotted(b));
  }

  // ---------------------------------------------------------------- the next version exceeds them all

  /** Without leading space and one leading `v`. */
  function CleanStart(s: string): string {
    var t := JsTrimStart(s);
    if t != "" && t[0] == 'v' then t[1..] else t
  }

  lemma {:induction false} TrimStartJoin(a: string, b: string)
    requires b != "" && !IsJsSpace(b[0])
    ensures JsTrimStart(a + b) == JsTrimStart(a) + b
    decreases |a|
  {
    if a == "" {
      assert a + b == b;
    } else {
      assert (a + b)[1..] == a[1..] + b;
      if IsJsSpace(a[0]) {
        TrimStartJoin(a[1..], b);
      }
    }
  }

  lemma CleanJoin(a: string, b: string)
    requires b != "" && !IsJsSpace(b[0]) && b[0] != 'v' && !IsJsSpace(b[|b| - 1])
    ensures Clean(a + b) == CleanStart(a) + b
  {
    TrimStartJoin(a, b);
    var t := JsTrimStart(a) + b;
    assert t[|t| - 1] == b[|b| - 1];
    assert JsTrimStart(a) != "" ==> t[0] == JsTrimStart(a)[0] && t[1..] == JsTrimStart(a)[1..] + b;
  }

  lemma SuffixShape(build: nat)
    ensures var m := MARK + Decimal(build);
      && HasPrefix(m, MARK) && m[|MARK|..] == Decimal(build) && ReadNumber(m[|MARK|..]) == Some((build, ""))
      && m[0] == '-' && !IsJsSpace(m[|m| - 1])
  {
    var m := MARK + Decimal(build);
    assert m[..|MARK|] == MARK && m[|MARK|..] == Decimal(build);
    NumberReads(Decimal(build), "");
    assert Decimal(build) + "" == Decimal(build);
    DecimalRoundTrip(build);
    assert m[|m| - 1] == Decimal(build)[|Decimal(build)| - 1];
  }

  lemma NoDashInBase(x: string, y: string, z: string, rest: string, c: string, tail: string)
    requires AllDigits(x) && AllDigits(y) && AllDigits(z) && '-' !in c
    requires x + ("." + (y + ("." + (z + rest)))) == c + tail
    requires rest != "" && rest[0] == '-' && tail != "" && tail[0] == '-'
    ensures c == x + ("." + (y + ("." + z))) && rest == tail
  {
    var head := x + ("." + (y + ("." + z)));
    var s := c + tail;
    assert s == head + rest;
    assert '-' !in head;
    IndexOfJoin(c, '-', tail[1..]);
    assert s == c + ['-'] + tail[1..];
    IndexOfJoin(head, '-', rest[1..]);
    assert s == head + ['-'] + rest[1..];
    assert c == s[..|c|] && head == s[..|c|] && rest == s[|c|..] && tail == s[|c|..];
  }

  /** Before a dash and more, a text is read as a whole base exactly when it is one. */
  lemma BaseBeforeDash(c: string, tail: string)
    requires '-' !in c && tail != "" && tail[0] == '-'
    ensures IsBase(c) ==> ReadBase(c + tail) == Some((BaseOf(c), tail))
    ensures ReadBase(c + tail).Some? && ReadBase(c + tail).value.1 != "" && ReadBase(c + tail).value.1[0] == '-' ==> IsBase(c)
  {
    var s := c + tail;
    if IsBase(c) {
      BaseReads(c, tail);
    }
    if ReadBase(s).Some? && ReadBase(s).value.1 != "" && ReadBase(s).value.1[0] == '-' {
      var x, y, z := BaseParts(s);
      NoDashInBase(x, y, z, ReadBase(s).value.1, c, tail);
      PartsRead(x, y, z, "");
      assert z + "" == z;
    }
  }

  /** A formatted version is a nightly exactly when its base is exactly `X.Y.Z`. */
  lemma FormatReads(target: string, build: nat)
    requires '-' !in target
    ensures ParseNightly(Format(target, build))
            == if IsBase(CleanStart(target)) then Some(Nightly(BaseOf(CleanStart(target)), build)) else None
    ensures ParseNightly(NightlyTag(Format(target, build))) == ParseNightly(Format(target, build))
  {
    var c, m := CleanStart(target), MARK + Decimal(build);
    SuffixShape(build);
    CleanJoin(target, m);
    CleanKeeps(target, '-');
    BaseBeforeDash(c, m);
    MarkStartsWithDash(ReadBase(c + m));
    TagCleans(Format(target, build), c + m);
  }

  lemma MarkStartsWithDash(r: Option<(Base, string)>)
    ensures r.Some? && HasPrefix(r.value.1, MARK) ==> r.value.1 != "" && r.value.1[0] == '-'
  {
    if r.Some? && HasPrefix(r.value.1, MARK) {
      assert r.value.1[0] == r.value.1[..|MARK|][0];
    }
  }

  lemma {:induction false} CleanKeeps(s: string, c: char)
    requires c !in s
    ensures c !in CleanStart(s)
    decreases |s|
  {
    if s != "" && IsJsSpace(s[0]) {
      CleanKeeps(s[1..], c);
    }
  }

  /** Tagging a version does not change what it means. */
  lemma TagCleans(version: string, cleaned: string)
    requires Clean(version) == cleaned && cleaned != "" && !IsJsSpace(cleaned[|cleaned| - 1])
    ensures Clean(NightlyTag(version)) == cleaned
  {
    var tag := "v" + cleaned;
    assert !IsJsSpace(tag[0]) && tag[|tag| - 1] == cleaned[|cleaned| - 1];
    assert tag[1..] == cleaned;
  }

  // ---------------------------------------------------------------- exactly which texts are nightlies

  ghost predicate Blank(s: string) {
    forall k :: 0 <= k < |s| ==> IsJsSpace(s[k])
  }

  lemma {:induction false} TrimStartBlank(a: string, t: string)
    requires Blank(a) && (t == "" || !IsJsSpace(t[0]))
    ensures JsTrimStart(a + t) == t
    decreases |a|
  {
    if a == "" {
      assert a + t == t;
    } else {
      assert (a + t)[1..] == a[1..] + t;
      TrimStartBlank(a[1..], t);
    }
  }

  lemma {:induction false} TrimEndBlank(t: string, b: string)
    requires Blank(b) && (t == "" || !IsJsSpace(t[|t| - 1]))
    ensures JsTrimEnd(t + b) == t
    decreases |b|
  {
    if b == "" {
      assert t + b == t;
    } else {
      assert (t + b)[..|t + b| - 1] == t + b[..|b| - 1];
      assert (t + b)[|t + b| - 1] == b[|b| - 1];
      TrimEndBlank(t, b[..|b| - 1]);
    }
  }

  /** Trimming takes away exactly the blanks around a text. */
  lemma TrimsAround(a: string, t: string, b: string)
    requires Blank(a) && Blank(b) && t != "" && !IsJsSpace(t[0]) && !IsJsSpace(t[|t| - 1])
    ensures JsTrimEnd(JsTrimStart(a + (t + b))) == t
  {
    TrimStartBlank(a, t + b);
    TrimEndBlank(t, b);
  }

  /** The cleaned text of a nightly: three numbers, the channel and the build. */
  ghost predicate IsNightlyText(c: string, x: string, y: string, z: string, b: string) {
    && x != "" && AllDigits(x) && y != "" && AllDigits(y) && z != "" && AllDigits(z) && b != "" && AllDigits(b)
    && c == x + ("." + (y + ("." + (z + ("-nightly." + b)))))
  }

  lemma NightlyTextReads(v: string, x: string, y: string, z: string, b: string)
    requires IsNightlyText(Clean(v), x, y, z, b)
    ensures ParseNightly(v) == Some(Nightly(Base(Value(x), Value(y), Value(z)), Value(b)))
  {
    var rest := MARK + b;
    PartsRead(x, y, z, rest);
    assert rest[..|MARK|] == MARK && rest[|MARK|..] == b;
    NumberReads(b, "");
    assert b + "" == b;
  }

  lemma BuildText(rest: string)
    requires HasPrefix(rest, MARK) && ReadNumber(rest[|MARK|..]).Some? && ReadNumber(rest[|MARK|..]).value.1 == ""
    ensures var b := rest[|MARK|..]; rest == "-nightly." + b && b != "" && AllDigits(b)
  {
    var b := rest[|MARK|..];
    NumberWritten(b);
    assert b == b[..DigitCount(b)] + "";
  }

  lemma NightlyTextParts(v: string) returns (x: string, y: string, z: string, b: string)
    requires ParseNightly(v).Some?
    ensures IsNightlyText(Clean(v), x, y, z, b)
  {
    x, y, z := BaseParts(Clean(v));
    var rest := ReadBase(Clean(v)).value.1;
    BuildText(rest);
    b := rest[|MARK|..];
  }

  /** Exactly which texts are nightlies, and which number each one is. */
  lemma NightliesExactly(v: string, n: Nightly)
    ensures ParseNightly(v) == Some(n) <==>
              exists x, y, z, b :: IsNightlyText(Clean(v), x, y, z, b)
                                   && n == Nightly(Base(Value(x), Value(y), Value(z)), Value(b))
  {
    if ParseNightly(v).Some? {
      var x, y, z, b := NightlyTextParts(v);
      NightlyTextReads(v, x, y, z, b);
    }
    if x, y, z, b :| IsNightlyText(Clean(v), x, y, z, b) && n == Nightly(Base(Value(x), Value(y), Value(z)), Value(b)) {
      NightlyTextReads(v, x, y, z, b);
    }
  }

  lemma BeforeAt(c: string, n: nat)
    requires n < |c| && c[n] == '-' && '-' !in c[..n]
    ensures Before(c, '-') == c[..n]
  {
    assert forall k :: 0 <= k < n ==> c[k] == c[..n][k];
  }

  lemma BaseHasNoDash(base: string)
    requires IsBase(base)
    ensures '-' !in base
  {
    var x, y, z := BaseParts(base);
    NoDashes(x, y, z);
  }

  /** A stem is what stands before the first dash: a prerelease suffix does not matter. */
  lemma StemReads(base: string, suffix: string)
    requires IsBase(base)
    ensures Stem(base + ("-" + suffix)) == base
  {
    BaseHasNoDash(base);
    BaseStarts(base);
    CleanKeepsStart(base, suffix);
    BeforeAt(Clean(base + ("-" + suffix)), |base|);
  }

  lemma BaseStarts(base: string)
    requires IsBase(base)
    ensures base != "" && IsDigit(base[0])
  {
    BaseReads(base, "");
  }

  lemma NoDashes(x: string, y: string, z: string)
    requires AllDigits(x) && AllDigits(y) && AllDigits(z)
    ensures '-' !in x + ("." + (y + ("." + (z + ""))))
  {
  }

  lemma {:induction false} TrimEndKeeps(t: string, keep: nat)
    requires 0 < keep <= |t| && !IsJsSpace(t[keep - 1])
    ensures |JsTrimEnd(t)| >= keep && JsTrimEnd(t)[..keep] == t[..keep]
    decreases |t|
  {
    if IsJsSpace(t[|t| - 1]) {
      TrimEndKeeps(t[..|t| - 1], keep);
    }
  }

  lemma CleanKeepsStart(base: string, suffix: string)
    requires base != "" && IsDigit(base[0])
    ensures var c := Clean(base + ("-" + suffix)); |c| > |base| && c[..|base|] == base && c[|base|] == '-'
  {
    var s := base + ("-" + suffix);
    assert s[0] == base[0] && s[|base|] == '-';
    TrimEndKeeps(s, |base| + 1);
    var c := Clean(s);
    assert c[..|base| + 1] == s[..|base| + 1];
    assert c[..|base|] == c[..|base| + 1][..|base|] && s[..|base|] == base;
  }

  lemma CleanText(s: string)
    requires s != "" && IsDigit(s[0]) && !IsJsSpace(s[|s| - 1])
    ensures Clean(s) == s
  {
  }

  /** A base is read whatever follows its third number. */
  lemma LongerTextHasBase(base: string, rest: string)
    requires IsBase(base) && StartsNoDigit(rest) && (rest == "" || !IsJsSpace(rest[|rest| - 1]))
    ensures ParseBase(base + rest) == Some(BaseOf(base))
  {
    BaseReads(base, rest);
    LastOfJoin(base, rest);
    CleanText(base + rest);
  }

  lemma LastOfJoin(base: string, rest: string)
    requires base != "" && IsDigit(base[0]) && IsDigit(base[|base| - 1]) && (rest == "" || !IsJsSpace(rest[|rest| - 1]))
    ensures var s := base + rest; s[0] == base[0] && !IsJsSpace(s[|s| - 1])
  {
    assert rest != "" ==> (base + rest)[|base + rest| - 1] == rest[|rest| - 1];
    assert rest == "" ==> base + rest == base;
  }
}
