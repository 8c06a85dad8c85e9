/** scripts/auto-bump.mjs: MAJOR.MINOR.PATCH and the next patch version. Numbers are
    unbounded here. */
module Versions {
  import opened Optional

  const DOT: char := '.'

  predicate Digits(s: string) {
    s != "" && forall i | 0 <= i < |s| :: '0' <= s[i] <= '9'
  }

  function DigitOf(n: nat): char
    requires n < 10
  {
    '0' + n as char
  }

  // Number(text) of a run of digits, leading zeros allowed.
  function NumberOf(s: string): nat
    requires Digits(s)
  {
    var last := (s[|s| - 1] - '0') as nat;
    if |s| == 1 then last else 10 * NumberOf(s[..|s| - 1]) + last
  }

  // `${number}`
  function Decimal(n: nat): string {
    if n < 10 then [DigitOf(n)] else Decimal(n / 10) + [DigitOf(n % 10)]
  }

  lemma {:induction false} DecimalIsRead(n: nat)
    ensures Digits(Decimal(n)) && NumberOf(Decimal(n)) == n
  {
    if n >= 10 {
      DecimalIsRead(n / 10);
      assert Decimal(n)[..|Decimal(n)| - 1] == Decimal(n / 10);
    }
  }

  datatype Parts = Parts(major: string, minor: string, patch: string)

  predicate AllDigits(parts: Parts) {
    Digits(parts.major) && Digits(parts.minor) && Digits(parts.patch)
  }

  function Written(parts: Parts): string {
    parts.major + [DOT] + (parts.minor + [DOT] + parts.patch)
  }

  function FirstDot(s: string): (k: nat)
    ensures k <= |s| && (k < |s| ==> s[k] == DOT) && forall i | 0 <= i < k :: s[i] != DOT
  {
    if s == "" || s[0] == DOT then 0 else 1 + FirstDot(s[1..])
  }

  // The pattern ^(\d+)\.(\d+)\.(\d+)$.
  function PartsOf(version: string): (found: Option<Parts>)
    ensures found.Some? ==> AllDigits(found.value)
  {
    var first := FirstDot(version);
    if first == |version| then None
    else
      var rest := version[first + 1..];
      var second := FirstDot(rest);
      if second == |rest| then None
      else
        var parts := Parts(version[..first], rest[..second], rest[second + 1..]);
        if AllDigits(parts) then Some(parts) else None
  }

  lemma WrittenIsTakenApart(parts: Parts)
    requires AllDigits(parts)
    ensures PartsOf(Written(parts)) == Some(parts)
  {
    assert NoDot(parts.major) && NoDot(parts.minor);
    DotEndsTheRun(parts.major, parts.minor + [DOT] + parts.patch);
    DotEndsTheRun(parts.minor, parts.patch);
  }

  // The pattern takes exactly the texts of three runs of digits, and takes them apart.
  lemma PartsAreWritten(version: string, parts: Parts)
    ensures PartsOf(version) == Some(parts) <==> AllDigits(parts) && version == Written(parts)
  {
    if AllDigits(parts) && version == Written(parts) {
      WrittenIsTakenApart(parts);
    }
    if PartsOf(version) == Some(parts) {
      var first := FirstDot(version);
      var rest := version[first + 1..];
      assert rest == parts.minor + [DOT] + parts.patch;
      assert version == version[..first] + [DOT] + rest;
    }
  }

  predicate NoDot(s: string) {
    forall i | 0 <= i < |s| :: s[i] != DOT
  }

  lemma DotEndsTheRun(run: string, rest: string)
    requires NoDot(run)
    ensures var whole := run + [DOT] + rest;
            FirstDot(whole) == |run| && whole[..|run|] == run && whole[|run| + 1..] == rest
  {
    var whole := run + [DOT] + rest;
    assert whole[|run|] == DOT;
    assert forall i | 0 <= i < |run| :: whole[i] == run[i];
  }

  function NextPatch(version: string): Option<string> {
    match PartsOf(version)
    case None => None
    case Some(parts) => Some(Written(parts.(patch := Decimal(NumberOf(parts.patch) + 1))))
  }

  // The order of versions: by major, then minor, then patch number.
  ghost predicate Later(version: string, earlier: string) {
    PartsOf(version).Some? && PartsOf(earlier).Some? && LaterParts(PartsOf(version).value, PartsOf(earlier).value)
  }

  ghost predicate LaterParts(after: Parts, before: Parts)
    requires AllDigits(after) && AllDigits(before)
  {
    var major, minor, patch := NumberOf(after.major), NumberOf(after.minor), NumberOf(after.patch);
    NumberOf(before.major) < major
    || (NumberOf(before.major) == major
        && (NumberOf(before.minor) < minor || (NumberOf(before.minor) == minor && NumberOf(before.patch) < patch)))
  }

  // A version has a next patch exactly when it reads MAJOR.MINOR.PATCH; the next one reads
  // so again, keeps major and minor and raises the patch by one.
  lemma NextPatchRises(version: string)
    ensures NextPatch(version).Some? <==> exists parts :: AllDigits(parts) && version == Written(parts)
    ensures NextPatch(version).Some? ==>
              var parts, next := PartsOf(version).value, PartsOf(NextPatch(version).value);
              next.Some? && next.value.major == parts.major && next.value.minor == parts.minor
              && NumberOf(next.value.patch) == NumberOf(parts.patch) + 1
              && Later(NextPatch(version).value, version)
  {
    if PartsOf(version).Some? {
      var parts := PartsOf(version).value;
      PartsAreWritten(version, parts);
      DecimalIsRead(NumberOf(parts.patch) + 1);
      WrittenIsTakenApart(parts.(patch := Decimal(NumberOf(parts.patch) + 1)));
    }
    forall parts | AllDigits(parts) && version == Written(parts) ensures NextPatch(version).Some? {
      PartsAreWritten(version, parts);
    }
  }

  lemma LaterIsStrict(a: string, b: string)
    requires Later(a, b)
    ensures a != b && !Later(b, a)
  {
  }

  lemma LaterTransitive(a: string, b: string, c: string)
    requires Later(a, b) && Later(b, c)
    ensures Later(a, c)
  {
  }
}
