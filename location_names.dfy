/**
 * Shortening of location names. The panels remove the first match of two fixed
 * regular expressions from a location's path:
 *   rbenv: `\.rbenv\/versions\/\d\.\d\.\d\/lib\/`
 *   gem:   `ruby\/gems\/\d.\d.\d\/gems\/`   (its `.` is unescaped: any character but a line terminator)
 * Neither has alternation or repetition, so a match is a fixed-length window whose
 * characters fit the pattern position by position, and `replace` without the `g`
 * flag removes the leftmost such window.
 */
module LocationNames {
  import opened Wrappers

  datatype PatternChar = Lit(c: char) | Digit | AnyButLineTerminator

  function Lits(s: string): (p: seq<PatternChar>)
    ensures |p| == |s| && forall k :: 0 <= k < |s| ==> p[k] == Lit(s[k])
  {
    seq(|s|, k requires 0 <= k < |s| => Lit(s[k]))
  }

  /** The rbenv library prefix (media/history.js:4, media/main.js:390). */
  const RbenvPattern: seq<PatternChar> :=
    Lits(".rbenv/versions/") + [Digit, Lit('.'), Digit, Lit('.'), Digit] + Lits("/lib/")

  /** The gem prefix (media/history.js:5). */
  const GemPattern: seq<PatternChar> :=
    Lits("ruby/gems/") + [Digit, AnyButLineTerminator, Digit, AnyButLineTerminator, Digit] + Lits("/gems/")

  predicate IsLineTerminator(c: char)
  {
    c == '\n' || c == '\r' || c == '\U{2028}' || c == '\U{2029}'
  }

  predicate CharMatches(p: PatternChar, c: char)
  {
    match p
    case Lit(l) => c == l
    case Digit => '0' <= c <= '9'
    case AnyButLineTerminator => !IsLineTerminator(c)
  }

  /** The pattern matches the window of `s` that starts at `i`. */
  predicate MatchesAt(s: string, pat: seq<PatternChar>, i: int)
  {
    0 <= i && i + |pat| <= |s| && forall k :: 0 <= k < |pat| ==> CharMatches(pat[k], s[i + k])
  }

  /** The leftmost position at or after `from` where the pattern matches. */
  function FirstMatch(s: string, pat: seq<PatternChar>, from: nat): (r: Option<nat>)
    ensures r.Some? ==> from <= r.value && MatchesAt(s, pat, r.value)
    ensures r.Some? ==> forall j :: from <= j < r.value ==> !MatchesAt(s, pat, j)
    ensures r.None? ==> forall j :: from <= j ==> !MatchesAt(s, pat, j)
    decreases |s| - from
  {
    if from + |pat| > |s| then None
    else if MatchesAt(s, pat, from) then Some(from)
    else FirstMatch(s, pat, from + 1)
  }

  /** `s.replace(regexp, '')`: the leftmost match, if any, is cut out. */
  function RemoveFirst(s: string, pat: seq<PatternChar>): (r: string)
    ensures (forall j :: !MatchesAt(s, pat, j)) ==> r == s
    ensures forall i ::
      MatchesAt(s, pat, i) && (forall j :: 0 <= j < i ==> !MatchesAt(s, pat, j)) ==>
        r == s[..i] + s[i + |pat|..]
  {
    match FirstMatch(s, pat, 0)
    case None => s
    case Some(i) => s[..i] + s[i + |pat|..]
  }

  /** A location name as the history panel shows it (media/history.js:224-225). */
  function StripLocationName(name: string): (shown: string)
    ensures |shown| <= |name|
  {
    RemoveFirst(RemoveFirst(name, RbenvPattern), GemPattern)
  }

  /** A location name as the main panel shows it (media/main.js:390-391). */
  function StripRbenvPrefix(name: string): (shown: string)
    ensures |shown| <= |name|
  {
    RemoveFirst(name, RbenvPattern)
  }

  /** A name without any rbenv or gem prefix is shown unchanged. */
  lemma PlainNameUnchanged(name: string)
    requires forall j :: !MatchesAt(name, RbenvPattern, j)
    requires forall j :: !MatchesAt(name, GemPattern, j)
    ensures StripLocationName(name) == name
  {
  }

  /**
   * A path under an rbenv-installed Ruby loses exactly its `.rbenv/versions/X.Y.Z/lib/`
   * part, provided no '.' occurs before it (so no earlier window can match).
   */
  lemma {:induction false} StripsInstalledRubyPrefix(home: string, x: char, y: char, z: char, rest: string)
    requires forall k :: 0 <= k < |home| ==> home[k] != '.'
    requires '0' <= x <= '9' && '0' <= y <= '9' && '0' <= z <= '9'
    ensures StripRbenvPrefix(home + ".rbenv/versions/" + [x, '.', y, '.', z] + "/lib/" + rest) == home + rest
  {
    var prefix, version, lib := ".rbenv/versions/", [x, '.', y, '.', z], "/lib/";
    var mid := prefix + version + lib;
    var s := home + mid + rest;
    assert s == home + prefix + version + lib + rest;
    var pat := RbenvPattern;
    assert |pat| == |mid| == 26;
    assert s[|home|..|home| + 26] == mid;
    forall k | 0 <= k < 26 ensures CharMatches(pat[k], s[|home| + k]) {
      assert s[|home| + k] == mid[k];
      if k < 16 {
        assert pat[k] == Lit(prefix[k]) && mid[k] == prefix[k];
      } else if k < 21 {
        assert pat[k] == [Digit, Lit('.'), Digit, Lit('.'), Digit][k - 16];
        assert mid[k] == version[k - 16];
      } else {
        assert pat[k] == Lit(lib[k - 21]) && mid[k] == lib[k - 21];
      }
    }
    assert MatchesAt(s, pat, |home|);
    forall j | 0 <= j < |home| ensures !MatchesAt(s, pat, j) {
      assert pat[0] == Lit('.');
      if j + 26 <= |s| {
        assert s[j] == home[j];
      }
    }
    assert s[..|home|] == home;
    assert s[|home| + 26..] == rest;
  }
}
