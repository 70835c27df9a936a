/**
 * The label the naming convention derives from a type name:
 *   typeName.Replace("Mod", "").Replace("Menu", "").Trim(), or typeName itself when that is empty.
 * Replace is ordinal and case-sensitive and removes non-overlapping occurrences left to right in
 * one pass; Trim drops leading and trailing white space (char.IsWhiteSpace).
 */
module MenuLabel {

  /** The characters char.IsWhiteSpace accepts: the Unicode space separators, line and
      paragraph separators, and the control characters U+0009..U+000D, U+0085. */
  predicate IsWhiteSpace(c: char) {
    c == ' ' || '\t' <= c <= '\r' || c == '\U{85}' || c == '\U{A0}' || c == '\U{1680}'
    || '\U{2000}' <= c <= '\U{200A}' || c == '\U{2028}' || c == '\U{2029}' || c == '\U{202F}'
    || c == '\U{205F}' || c == '\U{3000}'
  }

  /** pat occurs in s starting at index i. */
  predicate OccursAt(s: string, pat: string, i: int) {
    0 <= i && i + |pat| <= |s| && s[i..i + |pat|] == pat
  }

  /** s.Replace(pat, ""): one left-to-right pass that drops every non-overlapping occurrence. */
  function RemoveAll(s: string, pat: string): (r: string)
    requires pat != []
    ensures |r| <= |s|
  {
    if |s| < |pat| then s
    else if s[..|pat|] == pat then RemoveAll(s[|pat|..], pat)
    else [s[0]] + RemoveAll(s[1..], pat)
  }

  function TrimStart(s: string): (r: string)
    ensures |r| <= |s|
  {
    if s != [] && IsWhiteSpace(s[0]) then TrimStart(s[1..]) else s
  }

  function TrimEnd(s: string): (r: string)
    ensures |r| <= |s|
  {
    if s != [] && IsWhiteSpace(s[|s| - 1]) then TrimEnd(s[..|s| - 1]) else s
  }

  /** string.Trim(). */
  function Trim(s: string): (r: string)
    ensures |r| <= |s|
  {
    TrimEnd(TrimStart(s))
  }

  /** The label of a type found by the naming convention (ModMenuPatcher.cs:140-144). */
  function ConventionLabel(typeName: string): (r: string)
    ensures |r| <= |typeName|
    ensures r == [] <==> typeName == []
  {
    var stripped := Trim(RemoveAll(RemoveAll(typeName, "Mod"), "Menu"));
    if stripped == [] then typeName else stripped
  }

  // ---------------------------------------------------------------- Replace

  /** Replace leaves s alone exactly when pat does not occur in it; otherwise s gets shorter. */
  lemma {:induction false} RemoveAllUnchangedIff(s: string, pat: string)
    requires pat != []
    ensures |RemoveAll(s, pat)| <= |s|
    ensures RemoveAll(s, pat) == s <==> forall i :: 0 <= i <= |s| - |pat| ==> !OccursAt(s, pat, i)
  {
    if |s| < |pat| {
    } else if s[..|pat|] == pat {
      RemoveAllUnchangedIff(s[|pat|..], pat);
      assert OccursAt(s, pat, 0);
    } else {
      RemoveAllUnchangedIff(s[1..], pat);
      NoCopyPastHead(s, pat);
      assert s == [s[0]] + s[1..];
      assert RemoveAll(s, pat) == [s[0]] + RemoveAll(s[1..], pat);
      assert RemoveAll(s, pat) == s <==> RemoveAll(s[1..], pat) == s[1..];
    }
  }

  /** When s does not start with pat, pat occurs in s exactly where it occurs in s[1..]. */
  lemma NoCopyPastHead(s: string, pat: string)
    requires pat != [] && |pat| <= |s| && s[..|pat|] != pat
    ensures (forall i :: 0 <= i <= |s| - |pat| ==> !OccursAt(s, pat, i))
      <==> (forall i :: 0 <= i <= |s[1..]| - |pat| ==> !OccursAt(s[1..], pat, i))
  {
    assert !OccursAt(s, pat, 0);
    forall i | 1 <= i <= |s| - |pat|
      ensures OccursAt(s, pat, i) <==> OccursAt(s[1..], pat, i - 1)
    {
      var a, b := s[i..i + |pat|], s[1..][i - 1..i - 1 + |pat|];
      assert |a| == |b| && forall t :: 0 <= t < |a| ==> a[t] == s[i + t] == b[t];
      assert a == b;
    }
    if exists i :: 0 <= i <= |s[1..]| - |pat| && OccursAt(s[1..], pat, i) {
      var i :| 0 <= i <= |s[1..]| - |pat| && OccursAt(s[1..], pat, i);
      assert OccursAt(s, pat, i + 1);
    }
  }

  /** Replace only ever removes whole copies of pat: the result is k copies shorter. */
  lemma {:induction false} RemoveAllRemovesWholeCopies(s: string, pat: string) returns (k: nat)
    requires pat != []
    ensures |s| == |RemoveAll(s, pat)| + k * |pat|
  {
    if |s| < |pat| {
      k := 0;
    } else if s[..|pat|] == pat {
      var k' := RemoveAllRemovesWholeCopies(s[|pat|..], pat);
      k := k' + 1;
      assert k * |pat| == k' * |pat| + |pat|;
    } else {
      k := RemoveAllRemovesWholeCopies(s[1..], pat);
    }
  }

  /** Replace keeps a leading stretch that cannot start a copy of pat. */
  lemma {:induction false} RemoveAllAfterPlain(a: string, b: string, pat: string)
    requires pat != [] && forall i :: 0 <= i < |a| ==> a[i] != pat[0]
    ensures RemoveAll(a + b, pat) == a + RemoveAll(b, pat)
  {
    if a != [] {
      var ab := a + b;
      assert ab[1..] == a[1..] + b;
      RemoveAllAfterPlain(a[1..], b, pat);
      if |ab| >= |pat| {
        assert ab[..|pat|][0] == a[0];
        assert ab[..|pat|] != pat;
        calc {
          RemoveAll(ab, pat);
          [ab[0]] + RemoveAll(ab[1..], pat);
          [a[0]] + (a[1..] + RemoveAll(b, pat));
          { assert a == [a[0]] + a[1..]; }
          a + RemoveAll(b, pat);
        }
      } else {
        assert RemoveAll(ab, pat) == ab && RemoveAll(b, pat) == b;
      }
    } else {
      assert a + b == b;
    }
  }

  /** Replace drops a leading copy of pat and carries on after it. */
  lemma RemoveAllAfterCopy(b: string, pat: string)
    requires pat != []
    ensures RemoveAll(pat + b, pat) == RemoveAll(b, pat)
  {
    assert (pat + b)[..|pat|] == pat;
    assert (pat + b)[|pat|..] == b;
  }

  // ---------------------------------------------------------------- Trim

  /** Trim leaves no white space at either end of its result. */
  lemma {:induction false} TrimNoEdgeWhiteSpace(s: string)
    ensures Trim(s) != [] ==> !IsWhiteSpace(Trim(s)[0]) && !IsWhiteSpace(Trim(s)[|Trim(s)| - 1])
  {
    TrimStartNoLeading(s);
    TrimEndNoTrailing(TrimStart(s));
    var n := TrimEndIsPrefix(TrimStart(s));
  }

  lemma {:induction false} TrimStartNoLeading(s: string)
    ensures TrimStart(s) != [] ==> !IsWhiteSpace(TrimStart(s)[0])
  {
    if s != [] && IsWhiteSpace(s[0]) {
      TrimStartNoLeading(s[1..]);
    }
  }

  lemma {:induction false} TrimEndNoTrailing(s: string)
    ensures TrimEnd(s) != [] ==> !IsWhiteSpace(TrimEnd(s)[|TrimEnd(s)| - 1])
  {
    if s != [] && IsWhiteSpace(s[|s| - 1]) {
      TrimEndNoTrailing(s[..|s| - 1]);
    }
  }

  /** Trim cuts a contiguous slice out of s and everything it cuts away is white space. */
  lemma {:induction false} TrimIsSlice(s: string) returns (lo: nat, hi: nat)
    ensures lo <= hi <= |s| && Trim(s) == s[lo..hi]
    ensures forall k :: 0 <= k < lo ==> IsWhiteSpace(s[k])
    ensures forall k :: hi <= k < |s| ==> IsWhiteSpace(s[k])
  {
    lo := TrimStartIsSuffix(s);
    var t := TrimStart(s);
    var n := TrimEndIsPrefix(t);
    hi := lo + n;
    assert t == s[lo..];
  }

  lemma {:induction false} TrimStartIsSuffix(s: string) returns (lo: nat)
    ensures lo <= |s| && TrimStart(s) == s[lo..]
    ensures forall k :: 0 <= k < lo ==> IsWhiteSpace(s[k])
  {
    if s != [] && IsWhiteSpace(s[0]) {
      var l := TrimStartIsSuffix(s[1..]);
      lo := l + 1;
      assert s[1..][l..] == s[lo..];
    } else {
      lo := 0;
    }
  }

  lemma {:induction false} TrimEndIsPrefix(s: string) returns (n: nat)
    ensures n <= |s| && TrimEnd(s) == s[..n]
    ensures forall k :: n <= k < |s| ==> IsWhiteSpace(s[k])
  {
    if s != [] && IsWhiteSpace(s[|s| - 1]) {
      n := TrimEndIsPrefix(s[..|s| - 1]);
      assert s[..|s| - 1][..n] == s[..n];
    } else {
      n := |s|;
    }
  }

  /** A string with no white space at its ends is its own trim, so Trim is idempotent. */
  lemma {:induction false} TrimFixesTrimmed(s: string)
    requires s != [] ==> !IsWhiteSpace(s[0]) && !IsWhiteSpace(s[|s| - 1])
    ensures Trim(s) == s
  {
    assert TrimStart(s) == s;
    assert TrimEnd(s) == s;
  }

  lemma TrimIdempotent(s: string)
    ensures Trim(Trim(s)) == Trim(s)
  {
    TrimNoEdgeWhiteSpace(s);
    TrimFixesTrimmed(Trim(s));
  }

  // ---------------------------------------------------------------- the label

  /** The label is empty exactly when the type name is, and is otherwise either the type name
      itself (the fallback) or a non-empty string with no white space at its ends. */
  lemma ConventionLabelShape(typeName: string)
    ensures ConventionLabel(typeName) == [] <==> typeName == []
    ensures var l := ConventionLabel(typeName);
      l == typeName || (l != [] && !IsWhiteSpace(l[0]) && !IsWhiteSpace(l[|l| - 1]))
  {
    var stripped := Trim(RemoveAll(RemoveAll(typeName, "Mod"), "Menu"));
    TrimNoEdgeWhiteSpace(RemoveAll(RemoveAll(typeName, "Mod"), "Menu"));
  }

  /** A type name that contains neither "Mod" nor "Menu" and has no white space at its ends is
      used as it is. */
  lemma PlainTypeNameKept(typeName: string)
    requires forall i :: 0 <= i <= |typeName| - 3 ==> !OccursAt(typeName, "Mod", i)
    requires forall i :: 0 <= i <= |typeName| - 4 ==> !OccursAt(typeName, "Menu", i)
    requires typeName != [] ==> !IsWhiteSpace(typeName[0]) && !IsWhiteSpace(typeName[|typeName| - 1])
    ensures ConventionLabel(typeName) == typeName
  {
    RemoveAllUnchangedIff(typeName, "Mod");
    RemoveAllUnchangedIff(typeName, "Menu");
    TrimFixesTrimmed(typeName);
  }

  /** Replace keeps a first character that starts no copy of pat (position k tells them apart). */
  lemma RemoveAllSkipHead(s: string, pat: string, k: nat)
    requires k < |pat| <= |s| && s[k] != pat[k]
    ensures RemoveAll(s, pat) == [s[0]] + RemoveAll(s[1..], pat)
  {
    assert s[..|pat|][k] != pat[k];
  }

  lemma MenuHasNoMod()
    ensures RemoveAll("Menu", "Mod") == "Menu"
  {
    RemoveAllSkipHead("Menu", "Mod", 1);
    assert "Menu"[1..] == "enu" + [];
    RemoveAllAfterPlain("enu", [], "Mod");
  }

  /** Replace drops a copy of pat that follows a stretch which cannot start one. */
  lemma RemoveAllPlainCopy(a: string, pat: string, b: string)
    requires pat != [] && forall i :: 0 <= i < |a| ==> a[i] != pat[0]
    ensures RemoveAll(a + pat + b, pat) == a + RemoveAll(b, pat)
  {
    assert a + pat + b == a + (pat + b);
    RemoveAllAfterPlain(a, pat + b, pat);
    RemoveAllAfterCopy(b, pat);
  }

  lemma ExampleModMenuSteps()
    ensures RemoveAll("ExampleModMenu", "Mod") == "ExampleMenu"
    ensures RemoveAll("ExampleMenu", "Menu") == "Example"
  {
    assert "ExampleModMenu" == "Example" + "Mod" + "Menu";
    RemoveAllPlainCopy("Example", "Mod", "Menu");
    MenuHasNoMod();
    assert "ExampleMenu" == "Example" + "Menu" + [];
    RemoveAllPlainCopy("Example", "Menu", []);
  }

  /** The documented example: both words go. */
  lemma ExampleModMenuLabel()
    ensures ConventionLabel("ExampleModMenu") == "Example"
  {
    ExampleModMenuSteps();
    TrimFixesTrimmed("Example");
  }

  lemma SpacedNameSteps()
    ensures RemoveAll("Example ModMenu", "Mod") == "Example Menu"
    ensures RemoveAll("Example Menu", "Menu") == "Example "
  {
    assert "Example ModMenu" == "Example " + "Mod" + "Menu";
    RemoveAllPlainCopy("Example ", "Mod", "Menu");
    MenuHasNoMod();
    assert "Example Menu" == "Example " + "Menu" + [];
    RemoveAllPlainCopy("Example ", "Menu", []);
  }

  lemma TrimTrailingSpace()
    ensures Trim("Example ") == "Example"
  {
    var e := "Example ";
    assert TrimStart(e) == e;
    assert e[..|e| - 1] == "Example";
    assert TrimEnd(e) == TrimEnd("Example");
    TrimFixesTrimmed("Example");
  }

  /** White space left behind by the removals is trimmed. */
  lemma SpacedNameLabel()
    ensures ConventionLabel("Example ModMenu") == "Example"
  {
    SpacedNameSteps();
    TrimTrailingSpace();
  }

  /** A name made only of the removed words falls back to itself. */
  lemma FallbackLabels()
    ensures ConventionLabel("Mod") == "Mod"
    ensures ConventionLabel("ModMenu") == "ModMenu"
  {
    assert "Mod" == "Mod" + [];
    RemoveAllAfterCopy([], "Mod");
    assert "ModMenu" == "Mod" + "Menu";
    RemoveAllAfterCopy("Menu", "Mod");
    MenuHasNoMod();
    assert "Menu" == "Menu" + [];
    RemoveAllAfterCopy([], "Menu");
  }

  /** Replace is a single pass: dropping "Mod" can join the pieces into a new "Mod", which stays. */
  lemma RejoinedModStays()
    ensures ConventionLabel("MModod") == "Mod"
  {
    RemoveAllSkipHead("MModod", "Mod", 1);
    assert "MModod"[1..] == "Mod" + "od";
    RemoveAllAfterCopy("od", "Mod");
    assert "od" == "od" + [];
    RemoveAllAfterPlain("od", [], "Mod");
    assert RemoveAll("MModod", "Mod") == "Mod";
    TrimFixesTrimmed("Mod");
  }

  lemma RejoinedMenuSteps()
    ensures RemoveAll("XMenModu", "Mod") == "XMenu"
    ensures RemoveAll("XMenu", "Menu") == "X"
  {
    assert "XMenModu" == "X" + "MenModu";
    RemoveAllAfterPlain("X", "MenModu", "Mod");
    RemoveAllSkipHead("MenModu", "Mod", 1);
    assert "MenModu"[1..] == "en" + "Mod" + "u";
    RemoveAllPlainCopy("en", "Mod", "u");
    assert "XMenu" == "X" + "Menu" + [];
    RemoveAllPlainCopy("X", "Menu", []);
  }

  /** ... or into a "Menu", which the second replacement then drops. */
  lemma RejoinedMenuRemoved()
    ensures ConventionLabel("XMenModu") == "X"
  {
    RejoinedMenuSteps();
    TrimFixesTrimmed("X");
  }
}
