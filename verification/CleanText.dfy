/** Text from outside the shell, cleaned before it is published (domain/text.rs). */
module CleanText {
  import opened Common
  import opened Bytes
  import opened Text

  /** The byte limit of a status detail. */
  const DETAIL_LIMIT: nat := 120

  const ELLIPSIS: char := '\U{2026}'

  function Shown(c: char): char {
    if IsControl(c) then ' ' else c
  }

  /** The characters that fit, control characters as spaces, and whether some did not fit; `used` is
      how many bytes are taken already. */
  function Fit(s: string, used: nat, limit: nat): (string, bool) {
    if s == "" then ("", false)
    else if used + |EncodeChar(s[0])| > limit then ("", true)
    else
      var (rest, truncated) := Fit(s[1..], used + |EncodeChar(Shown(s[0]))|, limit);
      ([Shown(s[0])] + rest, truncated)
  }

  function Sanitized(s: string, limit: nat): string {
    var (cleaned, truncated) := Fit(s, 0, limit);
    Trim(cleaned) + if truncated then [ELLIPSIS] else ""
  }

  /** What is cleaned already, continued by the rest. */
  ghost function Continued(cleaned: string, rest: (string, bool)): (string, bool) {
    (cleaned + rest.0, rest.1)
  }

  lemma OneFits(s: string, i: nat, cleaned: string, used: nat, limit: nat)
    requires i < |s| && used + |EncodeChar(s[i])| <= limit
    ensures Continued(cleaned, Fit(s[i..], used, limit))
            == Continued(cleaned + [Shown(s[i])], Fit(s[i + 1..], used + |EncodeChar(Shown(s[i]))|, limit))
  {
    assert s[i..][1..] == s[i + 1..];
    Regroup(cleaned, [Shown(s[i])], Fit(s[i + 1..], used + |EncodeChar(Shown(s[i]))|, limit).0);
  }

  method Sanitize(s: string, limit: nat) returns (r: string)
    ensures r == Sanitized(s, limit)
  {
    var cleaned, truncated := "", false;
    var used: nat := 0;
    var i := 0;
    assert s[0..] == s && "" + Fit(s, 0, limit).0 == Fit(s, 0, limit).0;
    while i < |s| && !truncated
      invariant 0 <= i <= |s|
      invariant Fit(s, 0, limit) == if truncated then (cleaned, true) else Continued(cleaned, Fit(s[i..], used, limit))
      decreases |s| - i, !truncated
    {
      if used + |EncodeChar(s[i])| > limit {
        assert cleaned + "" == cleaned;
        truncated := true;
      } else {
        OneFits(s, i, cleaned, used, limit);
        var c := Shown(s[i]);
        cleaned := cleaned + [c];
        used := used + |EncodeChar(c)|;
        i := i + 1;
      }
    }
    assert s[|s|..] == "" && cleaned + "" == cleaned;
    r := Trim(cleaned) + if truncated then [ELLIPSIS] else "";
  }

  ghost predicate Printable(s: string) {
    forall k :: 0 <= k < |s| ==> !IsControl(s[k])
  }

  lemma {:induction false} FitIsShort(s: string, used: nat, limit: nat)
    requires used <= limit
    ensures used + |EncodeUtf8(Fit(s, used, limit).0)| <= limit && Printable(Fit(s, used, limit).0)
    decreases |s|
  {
    if s != "" && used + |EncodeChar(s[0])| <= limit {
      var more := used + |EncodeChar(Shown(s[0]))|;
      FitIsShort(s[1..], more, limit);
      assert Fit(s, used, limit).0 == [Shown(s[0])] + Fit(s[1..], more, limit).0;
      assert ([Shown(s[0])] + Fit(s[1..], more, limit).0)[1..] == Fit(s[1..], more, limit).0;
    }
  }

  lemma {:induction false} FitKeeps(s: string, used: nat, limit: nat)
    requires Printable(s) && used + |EncodeUtf8(s)| <= limit
    ensures Fit(s, used, limit) == (s, false)
    decreases |s|
  {
    if s != "" {
      FitKeeps(s[1..], used + |EncodeChar(s[0])|, limit);
      assert s == [s[0]] + s[1..];
    }
  }

  /** Trimming takes a piece out of the middle. */
  lemma TrimIsPart(s: string) returns (a: string, b: string)
    ensures s == a + Trim(s) + b
  {
    a := TrimStartCut(s);
    TrimEndIsPrefix(TrimStart(s));
    b := TrimStart(s)[|Trim(s)|..];
  }

  lemma {:induction false} TrimStartCut(s: string) returns (a: string)
    ensures s == a + TrimStart(s)
    decreases |s|
  {
    if s != "" && IsWhitespace(s[0]) {
      var rest := TrimStartCut(s[1..]);
      a := [s[0]] + rest;
      Regroup([s[0]], rest, TrimStart(s[1..]));
    } else {
      a := "";
    }
  }

  /** Whatever a service reports: the published detail has no control characters, starts with nothing
      blank and takes at most the limit, and three bytes more when the ellipsis says that it was cut. */
  lemma SanitizedIsPrintable(s: string, limit: nat)
    ensures Printable(Sanitized(s, limit))
    ensures |EncodeUtf8(Sanitized(s, limit))| <= limit + 3
    ensures Sanitized(s, limit) != "" ==> !IsWhitespace(Sanitized(s, limit)[0])
  {
    var cleaned := Fit(s, 0, limit).0;
    FitIsShort(s, 0, limit);
    TrimTrims(cleaned);
    TrimmedIsPrintable(cleaned);
    var trimmed := Trim(cleaned);
    EncodeJoin(trimmed, [ELLIPSIS]);
    assert [ELLIPSIS][1..] == "";
    assert trimmed + "" == trimmed;
    assert (trimmed + [ELLIPSIS])[0] == if trimmed == "" then ELLIPSIS else trimmed[0];
  }

  lemma TrimmedIsPrintable(s: string)
    requires Printable(s)
    ensures Printable(Trim(s)) && |EncodeUtf8(Trim(s))| <= |EncodeUtf8(s)|
  {
    var a, b := TrimIsPart(s);
    assert forall k :: 0 <= k < |Trim(s)| ==> Trim(s)[k] == s[|a| + k];
    EncodeJoin(a + Trim(s), b);
    EncodeJoin(a, Trim(s));
  }

  /** Clean text that fits is published as it is. */
  lemma CleanIsKept(s: string, limit: nat)
    requires Printable(s) && IsTrimmed(s) && |EncodeUtf8(s)| <= limit
    ensures Sanitized(s, limit) == s
  {
    FitKeeps(s, 0, limit);
    assert Trim(s) == s && s + "" == s;
  }

  /** The text with a space for every control character. */
  function Spaced(s: string): (r: string)
    ensures |r| == |s|
    ensures forall k :: 0 <= k < |s| ==> r[k] == if s[k] < ' ' || '\U{7F}' <= s[k] <= '\U{9F}' then ' ' else s[k]
  {
    seq(|s|, k requires 0 <= k < |s| => Shown(s[k]))
  }

  function Size(s: string): nat {
    |EncodeUtf8(s)|
  }

  /** The character at k still fits behind what is shown of the ones before it. */
  ghost predicate FitsAt(s: string, k: nat, used: nat, limit: nat)
    requires k < |s|
  {
    used + Size(Spaced(s[..k])) + |EncodeChar(s[k])| <= limit
  }

  /** The first n characters fit, and the next one does not. */
  ghost predicate CutHere(s: string, n: nat, used: nat, limit: nat) {
    && n <= |s| && (forall k :: 0 <= k < n ==> FitsAt(s, k, used, limit))
    && (n < |s| ==> !FitsAt(s, n, used, limit))
  }

  lemma SpacedFirst(s: string, k: nat)
    requires 1 <= k <= |s|
    ensures Spaced(s[..k]) == [Shown(s[0])] + Spaced(s[1..][..k - 1])
    ensures Size(Spaced(s[..k])) == |EncodeChar(Shown(s[0]))| + Size(Spaced(s[1..][..k - 1]))
  {
    var first, rest := [Shown(s[0])], Spaced(s[1..][..k - 1]);
    assert Spaced(s[..k]) == first + rest;
    assert (first + rest)[1..] == rest;
  }

  lemma FitsLater(s: string, k: nat, used: nat, limit: nat)
    requires 1 <= k < |s|
    ensures FitsAt(s, k, used, limit) <==> FitsAt(s[1..], k - 1, used + |EncodeChar(Shown(s[0]))|, limit)
  {
    SpacedFirst(s, k);
  }

  lemma {:induction false} FitExactly(s: string, used: nat, limit: nat) returns (n: nat)
    ensures CutHere(s, n, used, limit) && Fit(s, used, limit) == (Spaced(s[..n]), n < |s|)
    decreases |s|
  {
    n := 0;
    if s != "" {
      assert s[..0] == "" && Spaced("") == "";
      if FitsAt(s, 0, used, limit) {
        var m := FitExactly(s[1..], used + |EncodeChar(Shown(s[0]))|, limit);
        n := m + 1;
        SpacedFirst(s, n);
        forall k | 1 <= k <= n && k < |s| ensures FitsAt(s, k, used, limit) <==> k < n {
          FitsLater(s, k, used, limit);
        }
      }
    }
  }

  /** The published detail is the longest beginning that fits, with spaces for control characters, trimmed, and
      an ellipsis exactly when something was cut. */
  lemma SanitizedExactly(s: string, limit: nat)
    ensures exists n: nat :: CutHere(s, n, 0, limit)
              && Sanitized(s, limit) == if n < |s| then Trim(Spaced(s[..n])) + "\U{2026}" else Trim(Spaced(s))
  {
    var n := FitExactly(s, 0, limit);
    assert s[..|s|] == s;
    assert Trim(Spaced(s)) + "" == Trim(Spaced(s));
    assert CutHere(s, n, 0, limit);
  }
}
