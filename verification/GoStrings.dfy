/** The few functions of Go's `strings` package that the gateway relies on, over ASCII text. */
module GoStrings {

  /** The ASCII characters that `strings.TrimSpace` and `strings.Fields` treat as white space. */
  predicate IsSpace(c: char) {
    c == ' ' || '\t' <= c <= '\r'
  }

  function TrimSpaceLeft(s: string): (r: string)
    ensures r != "" ==> !IsSpace(r[0])
    ensures s != "" && !IsSpace(s[0]) ==> r == s
    ensures |r| <= |s|
  {
    if s != "" && IsSpace(s[0]) then TrimSpaceLeft(s[1..]) else s
  }

  function TrimSpaceRight(s: string): (r: string)
    ensures r <= s
    ensures r != "" ==> !IsSpace(r[|r| - 1])
    ensures s != "" && !IsSpace(s[|s| - 1]) ==> r == s
  {
    if s != "" && IsSpace(s[|s| - 1]) then TrimSpaceRight(s[..|s| - 1]) else s
  }

  function TrimSpace(s: string): (r: string)
    ensures r != "" ==> !IsSpace(r[0]) && !IsSpace(r[|r| - 1])
    ensures (s == "" || (!IsSpace(s[0]) && !IsSpace(s[|s| - 1]))) ==> r == s
  {
    TrimSpaceRight(TrimSpaceLeft(s))
  }

  predicate Trimmed(names: set<string>) {
    forall s <- names :: TrimSpace(s) == s
  }

  /** `strings.TrimSpace(s) == ""`; see `BlankIsTrimmedAway`. */
  predicate Blank(s: string) {
    forall c <- s :: IsSpace(c)
  }

  lemma {:induction false} BlankTrimsLeft(s: string)
    ensures TrimSpaceLeft(s) == "" <==> Blank(s)
  {
    if s != "" && IsSpace(s[0]) {
      BlankTrimsLeft(s[1..]);
      assert s == [s[0]] + s[1..];
    } else if s != "" {
      assert s[0] in s;
    }
  }

  lemma BlankIsTrimmedAway(s: string)
    ensures TrimSpace(s) == "" <==> Blank(s)
  {
    BlankTrimsLeft(s);
    var t := TrimSpaceLeft(s);
    if t != "" { FirstSurvives(t); }
  }

  lemma {:induction false} FirstSurvives(s: string)
    requires s != "" && !IsSpace(s[0])
    ensures TrimSpaceRight(s) != ""
    decreases |s|
  {
    if IsSpace(s[|s| - 1]) { FirstSurvives(s[..|s| - 1]); }
  }

  /** What is trimmed is white space, and all of it at both ends. */
  predicate TrimsTo(s: string, pre: string, r: string, post: string) {
    s == pre + r + post && Blank(pre) && Blank(post)
  }

  lemma {:induction false} TrimLeftSplits(s: string) returns (pre: string)
    ensures s == pre + TrimSpaceLeft(s) && Blank(pre)
  {
    if s != "" && IsSpace(s[0]) {
      var rest := TrimLeftSplits(s[1..]);
      pre := [s[0]] + rest;
      assert s == [s[0]] + s[1..];
    } else {
      pre := "";
    }
  }

  lemma {:induction false} TrimRightSplits(s: string) returns (post: string)
    ensures s == TrimSpaceRight(s) + post && Blank(post)
    decreases |s|
  {
    if s != "" && IsSpace(s[|s| - 1]) {
      var rest := TrimRightSplits(s[..|s| - 1]);
      post := rest + [s[|s| - 1]];
      assert s == s[..|s| - 1] + [s[|s| - 1]];
    } else {
      post := "";
    }
  }

  lemma TrimSpaceSplits(s: string) returns (pre: string, post: string)
    ensures TrimsTo(s, pre, TrimSpace(s), post)
  {
    pre := TrimLeftSplits(s);
    post := TrimRightSplits(TrimSpaceLeft(s));
    assert s == pre + (TrimSpace(s) + post);
    assert pre + (TrimSpace(s) + post) == pre + TrimSpace(s) + post;
  }

  lemma {:induction false} TrimLeftOfPadded(pre: string, text: string)
    requires Blank(pre) && text != "" && !IsSpace(text[0])
    ensures TrimSpaceLeft(pre + text) == text
  {
    if pre == "" {
      assert pre + text == text;
    } else {
      assert pre[0] in pre && (pre + text)[1..] == pre[1..] + text;
      TrimLeftOfPadded(pre[1..], text);
    }
  }

  lemma {:induction false} TrimRightOfPadded(text: string, post: string)
    requires Blank(post) && text != "" && !IsSpace(text[|text| - 1])
    ensures TrimSpaceRight(text + post) == text
    decreases |post|
  {
    if post == "" {
      assert text + post == text;
    } else {
      var last := |post| - 1;
      assert post[last] in post && (text + post)[..|text + post| - 1] == text + post[..last];
      TrimRightOfPadded(text, post[..last]);
    }
  }

  /** A text that neither starts nor ends with white space is what remains of it with white space around it. */
  lemma TrimSpaceIff(s: string, text: string)
    requires text != "" && !IsSpace(text[0]) && !IsSpace(text[|text| - 1])
    ensures TrimSpace(s) == text <==> exists pre, post :: TrimsTo(s, pre, text, post)
  {
    if TrimSpace(s) == text {
      var pre, post := TrimSpaceSplits(s);
    }
    forall pre, post | TrimsTo(s, pre, text, post) ensures TrimSpace(s) == text {
      assert s == pre + (text + post);
      TrimLeftOfPadded(pre, text + post);
      TrimRightOfPadded(text, post);
    }
  }

  /** `strings.TrimRight(s, "/")`. */
  function TrimRightSlash(s: string): (r: string)
    ensures r <= s
    ensures r != "" ==> r[|r| - 1] != '/'
    ensures s != "" && s[|s| - 1] != '/' ==> r == s
  {
    if s != "" && s[|s| - 1] == '/' then TrimRightSlash(s[..|s| - 1]) else s
  }

  lemma {:induction false} TrimSlashSplits(s: string) returns (slashes: string)
    ensures s == TrimRightSlash(s) + slashes && forall c <- slashes :: c == '/'
    decreases |s|
  {
    if s != "" && s[|s| - 1] == '/' {
      var rest := TrimSlashSplits(s[..|s| - 1]);
      slashes := rest + "/";
      assert s == s[..|s| - 1] + "/";
    } else {
      slashes := "";
    }
  }

  /** The given text spells the name, with white space around it and slashes after it. */
  ghost predicate Spells(given: string, name: string) {
    exists pre, slashes, post :: TrimsTo(given, pre, name + slashes, post) && forall c <- slashes :: c == '/'
  }

  lemma TrimmedIsSpelled(given: string)
    ensures Spells(given, TrimRightSlash(TrimSpace(given)))
  {
    var pre, post := TrimSpaceSplits(given);
    var slashes := TrimSlashSplits(TrimSpace(given));
    assert TrimsTo(given, pre, TrimRightSlash(TrimSpace(given)) + slashes, post);
  }

  /** `strings.HasPrefix`. */
  predicate HasPrefix(s: string, prefix: string) {
    prefix <= s
  }

  /** `strings.TrimPrefix`. */
  function TrimPrefix(s: string, prefix: string): string {
    if prefix <= s then s[|prefix|..] else s
  }
}
