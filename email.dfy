/**
 * The syntactic email check of the subscribe endpoint, the regular expression
 * `^[^\s@]+@[^\s@]+\.[^\s@]+$`, and the comma join used for the mailing-list
 * tags field.
 */
module EmailSyntax {
  import opened Wrappers

  /** The characters `\s` matches in an ECMAScript regular expression:
      the WhiteSpace and LineTerminator code points. */
  predicate IsRegexSpace(c: char)
  {
    || c == '\t' || c == '\n' || c == '\U{000B}' || c == '\U{000C}' || c == '\r'
    || c == ' ' || c == '\U{00A0}' || c == '\U{1680}'
    || ('\U{2000}' <= c <= '\U{200A}')
    || c == '\U{2028}' || c == '\U{2029}' || c == '\U{202F}' || c == '\U{205F}'
    || c == '\U{3000}' || c == '\U{FEFF}'
  }

  /** One character of the class `[^\s@]`. */
  predicate IsPlain(c: char)
  {
    !IsRegexSpace(c) && c != '@'
  }

  /** A string matched in full by `[^\s@]+`. */
  predicate IsPlainRun(t: string)
  {
    |t| > 0 && forall k :: 0 <= k < |t| ==> IsPlain(t[k])
  }

  /** The regular expression read as a pattern: three runs of `[^\s@]+`,
      the first two separated by an '@', the last two by a '.'. */
  ghost predicate MatchesPattern(s: string)
  {
    exists at, dot ::
      && 0 <= at < dot < |s|
      && s[at] == '@' && s[dot] == '.'
      && IsPlainRun(s[..at]) && IsPlainRun(s[at + 1..dot]) && IsPlainRun(s[dot + 1..])
  }

  /** The position of the first `c` in `s`, if any. */
  function IndexOf(s: string, c: char): (r: Option<nat>)
    ensures r.None? <==> c !in s
    ensures r.Some? ==> r.value < |s| && s[r.value] == c && c !in s[..r.value]
  {
    if |s| == 0 then None
    else if s[0] == c then Some(0)
    else
      match IndexOf(s[1..], c)
      case None => None
      case Some(k) =>
        assert s[..k + 1] == [s[0]] + s[1..][..k];
        Some(k + 1)
  }

  /** The first occurrence is the only candidate: any `c` with no `c` before it sits there. */
  lemma IndexOfIsFirst(s: string, c: char, i: nat)
    requires i < |s| && s[i] == c && c !in s[..i]
    ensures IndexOf(s, c) == Some(i)
  {
  }

  /** A slice whose every character is plain is a run of `[^\s@]+`. */
  lemma PlainSlice(s: string, lo: nat, hi: nat)
    requires lo < hi <= |s|
    requires forall k :: lo <= k < hi ==> IsPlain(s[k])
    ensures IsPlainRun(s[lo..hi])
  {
    forall j | 0 <= j < hi - lo ensures IsPlain(s[lo..hi][j]) {
      assert s[lo..hi][j] == s[lo + j];
    }
  }

  /** Every character of a run of `[^\s@]+` inside `s` is plain. */
  lemma PlainRunChars(s: string, lo: nat, hi: nat)
    requires lo <= hi <= |s|
    requires IsPlainRun(s[lo..hi])
    ensures forall k :: lo <= k < hi ==> IsPlain(s[k])
  {
    forall k | lo <= k < hi ensures IsPlain(s[k]) {
      assert s[lo..hi][k - lo] == s[k];
    }
  }

  /** A domain holds a '.' that is neither its first nor its last character. */
  predicate HasInnerDot(domain: string)
  {
    |domain| >= 3 && '.' in domain[1..|domain| - 1]
  }

  /** The validator: no whitespace, exactly one '@' (the first '@' has no
      other after it), a non-empty local part before it, and a domain after it
      with an inner '.'. */
  predicate IsValidEmail(s: string): (valid: bool)
    ensures valid ==> '@' in s && |s| >= 5
  {
    && (forall k :: 0 <= k < |s| ==> !IsRegexSpace(s[k]))
    && match IndexOf(s, '@')
       case None => false
       case Some(at) => at > 0 && '@' !in s[at + 1..] && HasInnerDot(s[at + 1..])
  }

  /** In an accepted email every character other than its one '@' is plain. */
  lemma ValidEmailCharsPlain(s: string, at: nat)
    requires IsValidEmail(s) && IndexOf(s, '@') == Some(at)
    ensures forall j :: 0 <= j < |s| && j != at ==> IsPlain(s[j])
  {
    forall j | 0 <= j < |s| && j != at ensures IsPlain(s[j]) {
      if j < at {
        assert s[..at][j] == s[j];
      } else {
        assert s[at + 1..][j - at - 1] == s[j];
      }
    }
  }

  /** Every string the validator accepts matches the regular expression. */
  lemma ValidEmailMatches(s: string)
    requires IsValidEmail(s)
    ensures MatchesPattern(s)
  {
    var at := IndexOf(s, '@').value;
    var domain := s[at + 1..];
    var inner := domain[1..|domain| - 1];
    var k :| 0 <= k < |inner| && inner[k] == '.';
    var dot := at + 2 + k;
    assert s[dot] == inner[k];
    ValidEmailCharsPlain(s, at);
    PlainSlice(s, 0, at);
    PlainSlice(s, at + 1, dot);
    PlainSlice(s, dot + 1, |s|);
    assert s[0..at] == s[..at] && s[dot + 1..|s|] == s[dot + 1..];
    assert && 0 <= at < dot < |s|
           && s[at] == '@' && s[dot] == '.'
           && IsPlainRun(s[..at]) && IsPlainRun(s[at + 1..dot]) && IsPlainRun(s[dot + 1..]);
  }

  /** Around the '@' and the '.' of a match, every character is plain. */
  lemma PatternCharsPlain(s: string, at: nat, dot: nat)
    requires at < dot < |s|
    requires IsPlainRun(s[..at]) && IsPlainRun(s[at + 1..dot]) && IsPlainRun(s[dot + 1..])
    ensures forall k :: 0 <= k < |s| && k != at && k != dot ==> IsPlain(s[k])
  {
    assert s[..at] == s[0..at];
    PlainRunChars(s, 0, at);
    PlainRunChars(s, at + 1, dot);
    PlainRunChars(s, dot + 1, |s|);
  }

  /** Every string the regular expression matches is accepted by the validator. */
  lemma MatchesIsValidEmail(s: string)
    requires MatchesPattern(s)
    ensures IsValidEmail(s)
  {
    var at, dot :|
      && 0 <= at < dot < |s|
      && s[at] == '@' && s[dot] == '.'
      && IsPlainRun(s[..at]) && IsPlainRun(s[at + 1..dot]) && IsPlainRun(s[dot + 1..]);
    PatternCharsPlain(s, at, dot);
    assert forall k :: 0 <= k < |s| ==> !IsRegexSpace(s[k]);
    assert '@' !in s[..at] by {
      forall j | 0 <= j < at ensures s[..at][j] != '@' {
        assert s[..at][j] == s[j];
      }
    }
    IndexOfIsFirst(s, '@', at);
    var domain := s[at + 1..];
    assert '@' !in domain by {
      forall j | 0 <= j < |domain| ensures domain[j] != '@' {
        assert domain[j] == s[at + 1 + j];
      }
    }
    assert HasInnerDot(domain) by {
      assert domain[1..|domain| - 1][dot - at - 2] == s[dot];
    }
  }

  /** The validator accepts exactly the strings the regular expression matches. */
  lemma ValidEmailIffPattern(s: string)
    ensures IsValidEmail(s) <==> MatchesPattern(s)
  {
    if IsValidEmail(s) {
      ValidEmailMatches(s);
    }
    if MatchesPattern(s) {
      MatchesIsValidEmail(s);
    }
  }

  /** A valid email holds exactly one '@'. */
  lemma ValidEmailHasOneAt(s: string)
    requires IsValidEmail(s)
    ensures '@' in s
    ensures forall i, j :: 0 <= i < j < |s| && s[i] == '@' ==> s[j] != '@'
  {
    var at := IndexOf(s, '@').value;
    forall i, j | 0 <= i < j < |s| && s[i] == '@' ensures s[j] != '@' {
      assert s[at + 1..][j - at - 1] == s[j];
    }
  }

  /** "not-an-email" has no '@' and is refused. */
  lemma NotAnEmailRejected()
    ensures !IsValidEmail("not-an-email")
  {
    var s := "not-an-email";
    assert forall k :: 0 <= k < |s| ==> s[k] != '@';
    assert IndexOf(s, '@') == None;
  }

  /** "undefined", what an absent value becomes as a string, is refused. */
  lemma UndefinedRejected()
    ensures !IsValidEmail("undefined")
  {
    var s := "undefined";
    assert forall k :: 0 <= k < |s| ==> s[k] != '@';
    assert IndexOf(s, '@') == None;
  }

  /** "a@b.com" is accepted. */
  lemma ExampleEmailAccepted()
    ensures IsValidEmail("a@b.com")
  {
    var e := "a@b.com";
    assert IndexOf(e, '@') == Some(1) by {
      IndexOfIsFirst(e, '@', 1);
    }
    assert forall k :: 0 <= k < |e| ==> !IsRegexSpace(e[k]) by {
      forall k | 0 <= k < |e| ensures !IsRegexSpace(e[k]) {
        assert e[k] in {'a', '@', 'b', '.', 'c', 'o', 'm'};
      }
    }
    assert HasInnerDot(e[2..]) by {
      assert e[2..] == "b.com";
      assert "b.com"[1..4] == ".co";
    }
    assert '@' !in e[2..];
  }

  /** `Array.prototype.join(sep)` over an array of strings. */
  function Join(parts: seq<string>, sep: char): (r: string)
    ensures |parts| == 0 ==> r == ""
    ensures |parts| >= 1 ==> |r| >= |parts[0]| && r[..|parts[0]|] == parts[0]
    ensures |parts| >= 2 ==> |r| > |parts[0]| && r[|parts[0]|] == sep
  {
    if |parts| == 0 then ""
    else if |parts| == 1 then parts[0]
    else parts[0] + [sep] + Join(parts[1..], sep)
  }

  /** Cutting a string at every `sep`: the reference inverse of Join. */
  function Split(s: string, sep: char): (r: seq<string>)
    ensures |r| >= 1
    decreases |s|
  {
    match IndexOf(s, sep)
    case None => [s]
    case Some(k) => [s[..k]] + Split(s[k + 1..], sep)
  }

  /** Joining a non-empty list of tags that hold no separator loses nothing. */
  lemma {:induction false} SplitJoin(parts: seq<string>, sep: char)
    requires |parts| >= 1
    requires forall i :: 0 <= i < |parts| ==> sep !in parts[i]
    ensures Split(Join(parts, sep), sep) == parts
  {
    if |parts| > 1 {
      var first, rest := parts[0], Join(parts[1..], sep);
      var s := first + [sep] + rest;
      assert Join(parts, sep) == s;
      assert s[..|first|] == first && s[|first|] == sep;
      IndexOfIsFirst(s, sep, |first|);
      assert s[|first| + 1..] == rest;
      assert Split(s, sep) == [first] + Split(rest, sep);
      SplitJoin(parts[1..], sep);
      assert parts == [first] + parts[1..];
    }
  }

  /** A tag that itself holds the separator cannot be told apart from two tags. */
  lemma JoinMergesSeparatedTags()
    ensures Join(["a,b"], ',') == Join(["a", "b"], ',')
  {
  }
}
