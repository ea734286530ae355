/** Generated object names: a base, a dash and a suffix, cut to the length limit. */
module Names {

  const MAX_NAME_LENGTH := 63

  /** util.ObjectNameForBaseAndSuffix. A suffix of more than 62 characters makes it panic. */
  function ObjectName(base: string, suffix: string): string
    requires |suffix| < MAX_NAME_LENGTH
  {
    var cut := if |base| + |suffix| > MAX_NAME_LENGTH then base[..MAX_NAME_LENGTH - |suffix| - 1] else base;
    cut + "-" + suffix
  }

  /** A generated name keeps to the limit except where base and suffix together have exactly 63
      characters: nothing is cut then, and the dash makes 64. */
  lemma ObjectNameLength(base: string, suffix: string)
    requires |suffix| < MAX_NAME_LENGTH
    ensures |ObjectName(base, suffix)| <= MAX_NAME_LENGTH <==> |base| + |suffix| != MAX_NAME_LENGTH
  {
  }

  /** The suffix can be read back from the name, so different dash-free suffixes never make the same
      name, whatever the bases and however they are cut. */
  lemma SuffixesSeparate(base: string, suffix: string, base': string, suffix': string)
    requires |suffix| < MAX_NAME_LENGTH && |suffix'| < MAX_NAME_LENGTH && '-' !in suffix && '-' !in suffix'
    requires ObjectName(base, suffix) == ObjectName(base', suffix')
    ensures suffix == suffix'
  {
    var name := ObjectName(base, suffix);
    LastDash(name, |name| - |suffix| - 1, |name| - |suffix'| - 1);
    assert suffix == name[|name| - |suffix|..];
    assert suffix' == name[|name| - |suffix'|..];
  }

  lemma LastDash(name: string, i: nat, j: nat)
    requires i < |name| && j < |name| && name[i] == '-' && name[j] == '-'
    requires '-' !in name[i + 1..] && '-' !in name[j + 1..]
    ensures i == j
  {
    assert forall k | i < k < |name| :: name[i + 1..][k - i - 1] == name[k];
    assert forall k | j < k < |name| :: name[j + 1..][k - j - 1] == name[k];
  }

  // ---------------------------------------------------------------- webhook services

  function DashesForDots(s: string): string {
    if s == "" then "" else [if s[0] == '.' then '-' else s[0]] + DashesForDots(s[1..])
  }

  function WebhookServiceName(deployment: string): string {
    ObjectName(DashesForDots(deployment), "service")
  }

  lemma {:induction false} DashesForDotsAt(s: string, i: nat)
    requires i < |s|
    ensures |DashesForDots(s)| == |s| && DashesForDots(s)[i] == if s[i] == '.' then '-' else s[i]
  {
    if i > 0 {
      DashesForDotsAt(s[1..], i - 1);
    } else if |s| > 1 {
      DashesForDotsAt(s[1..], 0);
    }
  }

  lemma DashesForDotsIs(s: string)
    ensures |DashesForDots(s)| == |s|
    ensures forall i | 0 <= i < |s| :: DashesForDots(s)[i] == if s[i] == '.' then '-' else s[i]
  {
    if s != "" {
      DashesForDotsAt(s, 0);
    }
    forall i | 0 <= i < |s| ensures DashesForDots(s)[i] == if s[i] == '.' then '-' else s[i] {
      DashesForDotsAt(s, i);
    }
  }

  /** A deployment name of 56 characters makes a service name of 64. */
  lemma SixtyFourCharacters(deployment: string)
    requires |deployment| == 56
    ensures |WebhookServiceName(deployment)| == MAX_NAME_LENGTH + 1
  {
    DashesForDotsIs(deployment);
  }

  /** The same text once dots are read as dashes. */
  ghost predicate SameButDots(s: string, t: string) {
    |s| == |t| && forall i | 0 <= i < |s| :: s[i] == t[i] || (s[i] in ".-" && t[i] in ".-")
  }

  /** What is kept of a deployment name in its service name. */
  function Kept(deployment: string): string {
    if |deployment| > 56 then deployment[..55] else deployment
  }

  lemma DashesKept(s: string, n: nat)
    requires n <= |s|
    ensures |DashesForDots(s)| == |s| && DashesForDots(s)[..n] == DashesForDots(s[..n])
  {
    DashesForDotsIs(s);
    DashesForDotsIs(s[..n]);
  }

  lemma ServiceNameOfKept(d: string)
    ensures WebhookServiceName(d) == DashesForDots(Kept(d)) + "-service"
  {
    DashesKept(d, |Kept(d)|);
    assert DashesForDots(d)[..|d|] == DashesForDots(d) && d[..|d|] == d;
    assert DashesForDots(Kept(d)) + "-" + "service" == DashesForDots(Kept(d)) + "-service";
  }

  lemma SameDashes(s: string, t: string)
    ensures DashesForDots(s) == DashesForDots(t) <==> SameButDots(s, t)
  {
    DashesForDotsIs(s);
    DashesForDotsIs(t);
    if DashesForDots(s) == DashesForDots(t) {
      assert forall i | 0 <= i < |s| :: DashesForDots(s)[i] == DashesForDots(t)[i];
    }
  }

  lemma SameFront(a: string, b: string, end: string)
    ensures a + end == b + end <==> a == b
  {
    if a + end == b + end {
      assert |a + end| == |b + end|;
      assert a == (a + end)[..|a|] && b == (b + end)[..|b|];
    }
  }

  /** Main result: two deployments share a service name exactly when what is kept of their names
      differs at most in dots and dashes. */
  lemma ServiceNamesCollide(d: string, e: string)
    ensures WebhookServiceName(d) == WebhookServiceName(e) <==> SameButDots(Kept(d), Kept(e))
  {
    ServiceNameOfKept(d);
    ServiceNameOfKept(e);
    SameFront(DashesForDots(Kept(d)), DashesForDots(Kept(e)), "-service");
    SameDashes(Kept(d), Kept(e));
  }
}
