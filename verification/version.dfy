/** `getIpsetVersionString` and `getIpsetSupportedVersion`: the first `v[0-9]+\.[0-9]+`
    in the reply to `ipset --version`, made a semantic version `MAJOR.MINOR.0` and
    compared with the minimum 6.0.0. */
module Version {
  import opened Wrappers
  import opened Numbers
  import opened Exec

  const VersionArgv: Argv := ["--version"]

  /** Length of the run of decimal digits in `s` starting at `i`. */
  function DigitRun(s: string, i: nat): (n: nat)
    requires i <= |s|
    ensures i + n <= |s|
    ensures i + n < |s| ==> !IsDigit(s[i + n])
    decreases |s| - i
  {
    if i == |s| || !IsDigit(s[i]) then 0 else 1 + DigitRun(s, i + 1)
  }

  /** The run is made of digits only. */
  lemma {:induction false} DigitRunIsDigits(s: string, i: nat)
    requires i <= |s|
    ensures AllDigits(s[i..i + DigitRun(s, i)])
    decreases |s| - i
  {
    if i < |s| && IsDigit(s[i]) {
      var n := DigitRun(s, i + 1);
      DigitRunIsDigits(s, i + 1);
      assert s[i..i + 1 + n] == [s[i]] + s[i + 1..i + 1 + n];
    }
  }

  /** The pattern `v[0-9]+\.[0-9]+` matches starting at index `i` of `s`. */
  predicate MatchesAt(s: string, i: nat) {
    && i < |s| && s[i] == 'v'
    && var d1 := DigitRun(s, i + 1);
       && d1 > 0 && i + 1 + d1 < |s| && s[i + 1 + d1] == '.'
       && DigitRun(s, i + 2 + d1) > 0
  }

  /** The leftmost index at or after `i` where the pattern matches. */
  function FirstMatch(s: string, i: nat): (r: Option<nat>)
    requires i <= |s|
    ensures r.Some? ==> i <= r.value < |s| && MatchesAt(s, r.value)
    ensures r.Some? ==> forall j :: i <= j < r.value ==> !MatchesAt(s, j)
    ensures r.None? ==> forall j :: i <= j < |s| ==> !MatchesAt(s, j)
    decreases |s| - i
  {
    if i == |s| then None
    else if MatchesAt(s, i) then Some(i)
    else FirstMatch(s, i + 1)
  }

  /** The digits of a `vMAJOR.MINOR` match. */
  datatype Token = Token(major: string, minor: string)

  /** `FindStringSubmatch` of `v[0-9]+\.[0-9]+`: the leftmost match, with the greedy
      digit runs taken whole. */
  function VersionToken(s: string): (r: Option<Token>)
    ensures r.Some? ==> |r.value.major| > 0 && AllDigits(r.value.major)
    ensures r.Some? ==> |r.value.minor| > 0 && AllDigits(r.value.minor)
    ensures r.Some? <==> FirstMatch(s, 0).Some?
  {
    match FirstMatch(s, 0)
    case None => None
    case Some(i) =>
      var d1 := DigitRun(s, i + 1);
      var d2 := DigitRun(s, i + 2 + d1);
      DigitRunIsDigits(s, i + 1);
      DigitRunIsDigits(s, i + 2 + d1);
      Some(Token(s[i + 1..i + 1 + d1], s[i + 2 + d1..i + 2 + d1 + d2]))
  }

  /** A token is found exactly when the pattern matches somewhere in the text. */
  lemma {:induction false} VersionTokenIffMatch(s: string)
    ensures VersionToken(s).Some? <==> exists i :: 0 <= i < |s| && MatchesAt(s, i)
  {
    if VersionToken(s).Some? {
      var i := FirstMatch(s, 0).value;
      assert 0 <= i < |s| && MatchesAt(s, i);
    }
  }

  /** A semantic version as go-semver holds it (int64 parts). */
  datatype Semver = Semver(major: nat, minor: nat, patch: nat)

  const MinVersion := Semver(6, 0, 0)

  /** go-semver's `LessThan`: major, then minor, then patch. */
  predicate LessThan(a: Semver, b: Semver) {
    || a.major < b.major
    || (a.major == b.major && a.minor < b.minor)
    || (a.major == b.major && a.minor == b.minor && a.patch < b.patch)
  }

  /** `semver.NewVersion(MAJOR.MINOR.0)`: each part goes through `strconv.ParseInt(_, 10, 64)`,
      which only fails when the digits exceed the int64 range. */
  function SemverOf(t: Token): (r: Option<Semver>)
    requires AllDigits(t.major) && AllDigits(t.minor)
    ensures r.Some? <==> Value(t.major) <= MaxInt64 && Value(t.minor) <= MaxInt64
    ensures r.Some? ==> r.value == Semver(Value(t.major), Value(t.minor), 0)
  {
    if Value(t.major) <= MaxInt64 && Value(t.minor) <= MaxInt64
    then Some(Semver(Value(t.major), Value(t.minor), 0))
    else None
  }

  /** What `getIpsetSupportedVersion` returns: a verdict, or an error. */
  datatype VersionCheck = Checked(supported: bool) | CheckFailed

  /** `getIpsetSupportedVersion` given the reply to `ipset --version`. */
  function SupportedVersion(reply: Reply): (r: VersionCheck)
    ensures r.CheckFailed? <==>
      || !reply.ok
      || VersionToken(reply.output).None?
      || Value(VersionToken(reply.output).value.major) > MaxInt64
      || Value(VersionToken(reply.output).value.minor) > MaxInt64
    ensures r == Checked(false) <==>
      && reply.ok
      && VersionToken(reply.output).Some?
      && Value(VersionToken(reply.output).value.major) < 6
      && Value(VersionToken(reply.output).value.minor) <= MaxInt64
  {
    if !reply.ok then CheckFailed
    else match VersionToken(reply.output)
      case None => CheckFailed
      case Some(t) =>
        match SemverOf(t)
        case None => CheckFailed
        case Some(v) => Checked(!LessThan(v, MinVersion))
  }

  /** The version must be at least 6.0.0: with the patch fixed at 0, only the major part decides. */
  lemma {:induction false} MajorDecides(v: Semver)
    requires v.patch == 0
    ensures LessThan(v, MinVersion) <==> v.major < 6
  {
  }

  lemma {:induction false} VersionOfShortReply(major: char, minor: char)
    requires IsDigit(major) && IsDigit(minor)
    ensures VersionToken(['v', major, '.', minor]) == Some(Token([major], [minor]))
  {
    var s := ['v', major, '.', minor];
    assert DigitRun(s, 4) == 0;
    assert DigitRun(s, 3) == 1;
    assert DigitRun(s, 2) == 0;
    assert DigitRun(s, 1) == 1;
    assert MatchesAt(s, 0);
    assert FirstMatch(s, 0) == Some(0);
    assert s[1..2] == [major] && s[3..4] == [minor];
  }

  /** A reply `vX.Y` with one digit each is supported exactly when `X` is at least 6. */
  lemma {:induction false} SupportedShortReply(major: char, minor: char)
    requires IsDigit(major) && IsDigit(minor)
    ensures SupportedVersion(Reply(true, ['v', major, '.', minor])) == Checked(DigitValue(major) >= 6)
  {
    VersionOfShortReply(major, minor);
    var t := Token([major], [minor]);
    assert [major][1..] == [] && [minor][1..] == [];
    assert Value([major]) == ValueFrom([], DigitValue(major)) == DigitValue(major);
    assert Value([minor]) == ValueFrom([], DigitValue(minor)) == DigitValue(minor);
    assert SemverOf(t) == Some(Semver(DigitValue(major), DigitValue(minor), 0));
    MajorDecides(Semver(DigitValue(major), DigitValue(minor), 0));
  }

  /** "v5.9" is refused, "v6.0" and "v7.2" are accepted. */
  lemma {:induction false} KnownVersions()
    ensures SupportedVersion(Reply(true, "v5.9")) == Checked(false)
    ensures SupportedVersion(Reply(true, "v6.0")) == Checked(true)
    ensures SupportedVersion(Reply(true, "v7.2")) == Checked(true)
  {
    assert "v5.9" == ['v', '5', '.', '9'];
    SupportedShortReply('5', '9');
    assert "v6.0" == ['v', '6', '.', '0'];
    SupportedShortReply('6', '0');
    assert "v7.2" == ['v', '7', '.', '2'];
    SupportedShortReply('7', '2');
  }

  /** A run of `n` digits at `i`, followed by the end or a non-digit, is the digit run at `i`. */
  lemma {:induction false} DigitRunOfRun(s: string, i: nat, n: nat)
    requires i + n <= |s|
    requires forall k :: i <= k < i + n ==> IsDigit(s[k])
    requires i + n == |s| || !IsDigit(s[i + n])
    ensures DigitRun(s, i) == n
    decreases n
  {
    if n > 0 {
      DigitRunOfRun(s, i + 1, n - 1);
    }
  }

  /** The text `v<d1>.<d2><post>`, after a prefix. */
  function Printed(pre: string, d1: string, d2: string, post: string): string {
    pre + (['v'] + (d1 + (['.'] + (d2 + post))))
  }

  lemma {:induction false} PrintedSlices(pre: string, d1: string, d2: string, post: string)
    ensures Printed(pre, d1, d2, post)[|pre| + 1..|pre| + 1 + |d1|] == d1
    ensures Printed(pre, d1, d2, post)[|pre| + 2 + |d1|..|pre| + 2 + |d1| + |d2|] == d2
  {
  }

  lemma {:induction false} PrintedMajorRun(pre: string, d1: string, d2: string, post: string)
    requires AllDigits(d1)
    ensures DigitRun(Printed(pre, d1, d2, post), |pre| + 1) == |d1|
  {
    var s := Printed(pre, d1, d2, post);
    var i := |pre| + 1;
    PrintedSlices(pre, d1, d2, post);
    assert forall k :: i <= k < i + |d1| ==> s[k] == d1[k - i];
    assert s[i + |d1|] == '.';
    DigitRunOfRun(s, i, |d1|);
  }

  lemma {:induction false} PrintedMinorRun(pre: string, d1: string, d2: string, post: string)
    requires AllDigits(d2)
    requires |post| == 0 || !IsDigit(post[0])
    ensures DigitRun(Printed(pre, d1, d2, post), |pre| + 2 + |d1|) == |d2|
  {
    var s := Printed(pre, d1, d2, post);
    var i := |pre| + 2 + |d1|;
    PrintedSlices(pre, d1, d2, post);
    assert forall k :: i <= k < i + |d2| ==> s[k] == d2[k - i];
    assert s[i + |d2|..] == post;
    if |post| > 0 {
      assert s[i + |d2|] == post[0];
    }
    DigitRunOfRun(s, i, |d2|);
  }

  lemma {:induction false} PrintedMatch(pre: string, d1: string, d2: string, post: string)
    requires |d1| > 0 && AllDigits(d1) && |d2| > 0 && AllDigits(d2)
    requires |post| == 0 || !IsDigit(post[0])
    ensures DigitRun(Printed(pre, d1, d2, post), |pre| + 1) == |d1|
    ensures DigitRun(Printed(pre, d1, d2, post), |pre| + 2 + |d1|) == |d2|
    ensures MatchesAt(Printed(pre, d1, d2, post), |pre|)
  {
    var s := Printed(pre, d1, d2, post);
    PrintedMajorRun(pre, d1, d2, post);
    PrintedMinorRun(pre, d1, d2, post);
    assert s[|pre|] == 'v';
    assert s[|pre| + 1 + |d1|] == '.';
  }

  /** The first match is the first 'v' that starts one. */
  lemma {:induction false} FirstMatchAfterNoV(s: string, i: nat)
    requires i < |s| && MatchesAt(s, i)
    requires forall j :: 0 <= j < i ==> s[j] != 'v'
    ensures FirstMatch(s, 0) == Some(i)
  {
  }

  lemma {:induction false} PrintedPrefixHasNoV(pre: string, d1: string, d2: string, post: string)
    requires 'v' !in pre
    ensures forall j :: 0 <= j < |pre| ==> Printed(pre, d1, d2, post)[j] != 'v'
  {
    var s := Printed(pre, d1, d2, post);
    forall j | 0 <= j < |pre| ensures s[j] != 'v' {
      assert s[j] == pre[j];
    }
  }

  lemma {:induction false} VersionTokenOfFirstMatch(s: string, i: nat)
    requires FirstMatch(s, 0) == Some(i)
    ensures i < |s|
    ensures VersionToken(s) == Some(Token(
      s[i + 1..i + 1 + DigitRun(s, i + 1)],
      s[i + 2 + DigitRun(s, i + 1)..i + 2 + DigitRun(s, i + 1) + DigitRun(s, i + 2 + DigitRun(s, i + 1))]))
  {
    assert MatchesAt(s, i);
    var d1 := DigitRun(s, i + 1);
    assert i + 2 + d1 <= |s|;
    var d2 := DigitRun(s, i + 2 + d1);
    assert VersionToken(s) == Some(Token(s[i + 1..i + 1 + d1], s[i + 2 + d1..i + 2 + d1 + d2]));
  }

  /** The token is read off the first match and its two digit runs. */
  lemma {:induction false} VersionTokenAt(s: string, i: nat, d1: string, d2: string)
    requires FirstMatch(s, 0) == Some(i)
    requires DigitRun(s, i + 1) == |d1| && DigitRun(s, i + 2 + |d1|) == |d2|
    requires s[i + 1..i + 1 + |d1|] == d1
    requires s[i + 2 + |d1|..i + 2 + |d1| + |d2|] == d2
    ensures VersionToken(s) == Some(Token(d1, d2))
  {
    VersionTokenOfFirstMatch(s, i);
  }

  lemma {:induction false} PrintedFirstMatch(pre: string, d1: string, d2: string, post: string)
    requires 'v' !in pre
    requires |d1| > 0 && AllDigits(d1) && |d2| > 0 && AllDigits(d2)
    requires |post| == 0 || !IsDigit(post[0])
    ensures FirstMatch(Printed(pre, d1, d2, post), 0) == Some(|pre|)
  {
    PrintedMatch(pre, d1, d2, post);
    PrintedPrefixHasNoV(pre, d1, d2, post);
    FirstMatchAfterNoV(Printed(pre, d1, d2, post), |pre|);
  }

  /** A version printed as `vMAJOR.MINOR` after text without a 'v' is the one read. */
  lemma {:induction false} VersionTokenOfPrinted(pre: string, d1: string, d2: string, post: string)
    requires 'v' !in pre
    requires |d1| > 0 && AllDigits(d1) && |d2| > 0 && AllDigits(d2)
    requires |post| == 0 || !IsDigit(post[0])
    ensures VersionToken(Printed(pre, d1, d2, post)) == Some(Token(d1, d2))
  {
    var s := Printed(pre, d1, d2, post);
    PrintedFirstMatch(pre, d1, d2, post);
    PrintedMajorRun(pre, d1, d2, post);
    PrintedMinorRun(pre, d1, d2, post);
    PrintedSlices(pre, d1, d2, post);
    assert FirstMatch(s, 0) == Some(|pre|);
    assert DigitRun(s, |pre| + 1) == |d1|;
    assert DigitRun(s, |pre| + 2 + |d1|) == |d2|;
    VersionTokenAt(s, |pre|, d1, d2);
  }

  /** A successful query printing `vMAJOR.MINOR` is accepted exactly when MAJOR is at least 6. */
  lemma {:induction false} SupportedIffMajorAtLeastSix(pre: string, major: nat, minor: nat, post: string)
    requires 'v' !in pre
    requires |post| == 0 || !IsDigit(post[0])
    requires major <= MaxInt64 && minor <= MaxInt64
    ensures SupportedVersion(Reply(true, Printed(pre, Digits(major), Digits(minor), post))) == Checked(major >= 6)
  {
    VersionTokenOfPrinted(pre, Digits(major), Digits(minor), post);
    ValueOfDigits(major);
    ValueOfDigits(minor);
  }

  /** A reply with no version in it, or a failed query, is an error, not a verdict. */
  lemma {:induction false} NoVersionIsAnError(reply: Reply)
    requires !reply.ok || forall i :: 0 <= i < |reply.output| ==> reply.output[i] != 'v'
    ensures SupportedVersion(reply) == CheckFailed
  {
    if reply.ok {
      VersionTokenIffMatch(reply.output);
    }
  }
}
