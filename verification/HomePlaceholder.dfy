/** The one portable placeholder: normalizing a home path to it and rendering it back. */
module HomePlaceholder {
  import opened Wrappers
  import opened Text

  const PLACEHOLDER := "{{ HOME }}"

  /** value.replace(f"{home}/", "{{ HOME }}/") */
  function Normalize(value: string, home: string): string {
    Replace(value, home + "/", PLACEHOLDER + "/")
  }

  /** value.replace("{{ HOME }}", home) */
  function Render(value: string, home: string): string {
    Replace(value, PLACEHOLDER, home)
  }

  /** The placeholder overlaps no proper part of itself. */
  lemma Unbordered(k: nat)
    requires 0 < k < |PLACEHOLDER|
    ensures PLACEHOLDER[k..] != PLACEHOLDER[..|PLACEHOLDER| - k]
  {
    assert PLACEHOLDER[k..][0] == PLACEHOLDER[k];
    assert PLACEHOLDER[..|PLACEHOLDER| - k][0] == '{';
    if k == 1 {
      assert PLACEHOLDER[k..][1] == ' ' && PLACEHOLDER[..|PLACEHOLDER| - k][1] == '{';
    }
  }

  lemma TailStep(c: char, t: string, tail: string)
    requires tail != ""
    ensures StartsWith([c] + t, tail) <==> c == tail[0] && StartsWith(t, tail[1..])
  {
    var s := [c] + t;
    if |tail| <= |s| {
      assert s[..|tail|] == [c] + t[..|tail| - 1];
      assert tail == [tail[0]] + tail[1..];
    }
  }

  lemma NoTailBeforeHome(rest: string, k: nat)
    requires 0 < k < |PLACEHOLDER|
    ensures !StartsWith(PLACEHOLDER + rest, PLACEHOLDER[k..])
  {
    assert (PLACEHOLDER + rest)[..|PLACEHOLDER| - k] == PLACEHOLDER[..|PLACEHOLDER| - k];
    Unbordered(k);
  }

  /** A tail of the placeholder at the head of a normalized text was in the text already. */
  lemma {:induction false} TailSurvives(t: string, home: string, k: nat)
    requires 0 < k <= |PLACEHOLDER| && StartsWith(Normalize(t, home), PLACEHOLDER[k..])
    ensures StartsWith(t, PLACEHOLDER[k..])
  {
    if k < |PLACEHOLDER| {
      if StartsWith(t, home + "/") {
        var rest := "/" + Normalize(t[|home| + 1..], home);
        assert Normalize(t, home) == PLACEHOLDER + rest;
        NoTailBeforeHome(rest, k);
      } else if t != "" {
        assert PLACEHOLDER[k..][1..] == PLACEHOLDER[k + 1..];
        TailStep(t[0], Normalize(t[1..], home), PLACEHOLDER[k..]);
        TailSurvives(t[1..], home, k + 1);
        assert t == [t[0]] + t[1..];
        TailStep(t[0], t[1..], PLACEHOLDER[k..]);
      }
    }
  }

  /** A normalized text starts with the placeholder only if the text did, when no home starts there. */
  lemma NoNewPlaceholder(s: string, home: string)
    requires s != "" && !StartsWith(s, home + "/") && !StartsWith(s, PLACEHOLDER)
    ensures !StartsWith(Normalize(s, home), PLACEHOLDER)
  {
    var n := Normalize(s, home);
    assert n[0] == s[0] && n[1..] == Normalize(s[1..], home);
    assert |s| >= |PLACEHOLDER| ==> s[..|PLACEHOLDER|] == [s[0]] + s[1..][..|PLACEHOLDER| - 1];
    assert PLACEHOLDER == ['{'] + PLACEHOLDER[1..];
    if StartsWith(n, PLACEHOLDER) {
      assert n[..|PLACEHOLDER|][1..] == n[1..][..|PLACEHOLDER| - 1];
      assert n[..|PLACEHOLDER|][0] == n[0];
      TailSurvives(s[1..], home, 1);
    }
  }

  lemma RenderAfterHome(tail: string, home: string)
    ensures Render(PLACEHOLDER + tail, home) == home + Render(tail, home)
    ensures Render("/" + tail, home) == "/" + Render(tail, home)
  {
    var p, t := PLACEHOLDER + tail, "/" + tail;
    assert p[..|PLACEHOLDER|] == PLACEHOLDER && p[|PLACEHOLDER|..] == tail;
    assert t[0] == '/' && t[1..] == tail;
    assert |t| >= |PLACEHOLDER| ==> t[..|PLACEHOLDER|][0] == '/';
  }

  lemma RenderUnderHome(s: string, home: string)
    requires StartsWith(s, home + "/")
    ensures Render(Normalize(s, home), home) == home + "/" + Render(Normalize(s[|home| + 1..], home), home)
  {
    var n := Normalize(s[|home| + 1..], home);
    RenderAfterHome("/" + n, home);
    RenderAfterHome(n, home);
    assert Normalize(s, home) == PLACEHOLDER + ("/" + n);
  }

  /** Rendering what was normalized gives the text back, unless it held the placeholder itself. */
  lemma {:induction false} RoundTrip(s: string, home: string)
    requires !Contains(s, PLACEHOLDER)
    ensures Render(Normalize(s, home), home) == s
  {
    if StartsWith(s, home + "/") {
      var rest := s[|home| + 1..];
      RestLacks(s, |home| + 1);
      RoundTrip(rest, home);
      RenderUnderHome(s, home);
      assert s == home + "/" + rest;
    } else if s != "" {
      RoundTrip(s[1..], home);
      NoNewPlaceholder(s, home);
      assert Normalize(s, home)[1..] == Normalize(s[1..], home);
      assert s == [s[0]] + s[1..];
    }
  }

  /** An absolute home: the placeholder is the only thing that does not come back. */
  lemma {:induction false} RoundTripIff(s: string, home: string)
    requires home != "" && home[0] == '/' && !Contains(home, PLACEHOLDER)
    ensures Render(Normalize(s, home), home) == s <==> !Contains(s, PLACEHOLDER)
  {
    if !Contains(s, PLACEHOLDER) {
      RoundTrip(s, home);
    } else if StartsWith(s, home + "/") {
      var rest := s[|home| + 1..];
      assert s == home + "/" + rest;
      OccurrenceAfterHome(s, home);
      RoundTripIff(rest, home);
      RenderUnderHome(s, home);
      assert Render(Normalize(s, home), home)[|home| + 1..] == Render(Normalize(rest, home), home);
    } else if StartsWith(s, PLACEHOLDER) {
      PlaceholderStays(s, home, 0);
      var n := Normalize(s, home);
      assert n == PLACEHOLDER + n[|PLACEHOLDER|..];
      RenderAfterHome(n[|PLACEHOLDER|..], home);
      assert s[0] == s[..|PLACEHOLDER|][0] == '{';
    } else {
      RoundTripIff(s[1..], home);
      NoNewPlaceholder(s, home);
      var n := Normalize(s, home);
      assert n[0] == s[0] && n[1..] == Normalize(s[1..], home);
      assert Render(n, home)[1..] == Render(n[1..], home);
    }
  }

  /** The placeholder cannot straddle the slash after a home. */
  lemma OccurrenceAfterHome(s: string, home: string)
    requires StartsWith(s, home + "/") && Contains(s, PLACEHOLDER) && !Contains(home, PLACEHOLDER)
    ensures Contains(s[|home| + 1..], PLACEHOLDER)
  {
    var i := ContainsWhere(s, PLACEHOLDER);
    assert s[|home|] == (home + "/")[|home|] == '/';
    assert s[i..][..|PLACEHOLDER|] == PLACEHOLDER;
    assert forall j :: i <= j < i + |PLACEHOLDER| ==> s[j] == s[i..][..|PLACEHOLDER|][j - i];
    assert forall j :: 0 <= j < |PLACEHOLDER| ==> PLACEHOLDER[j] != '/';
    if i <= |home| {
      assert i + |PLACEHOLDER| <= |home|;
      assert s[..|home|] == home;
      assert home[i..][..|PLACEHOLDER|] == s[i..][..|PLACEHOLDER|];
      ContainsAt(home, PLACEHOLDER, i);
    } else {
      assert s[|home| + 1..][i - |home| - 1..] == s[i..];
      ContainsAt(s[|home| + 1..], PLACEHOLDER, i - |home| - 1);
    }
  }

  lemma HomeHead(s: string, home: string)
    requires home != "" && s != ""
    ensures StartsWith(s, home + "/") ==> s[0] == home[0]
  {
    if StartsWith(s, home + "/") {
      assert s[0] == s[..|home| + 1][0];
    }
  }

  /** No home starts inside the placeholder, so normalizing passes over it. */
  lemma {:induction false} PlaceholderStays(s: string, home: string, k: nat)
    requires home != "" && home[0] == '/' && k <= |PLACEHOLDER| && StartsWith(s, PLACEHOLDER[k..])
    ensures StartsWith(Normalize(s, home), PLACEHOLDER[k..])
    decreases |PLACEHOLDER| - k
  {
    if k < |PLACEHOLDER| {
      var tail := PLACEHOLDER[k..];
      assert s[0] == s[..|tail|][0] == PLACEHOLDER[k] != '/';
      HomeHead(s, home);
      assert tail[1..] == PLACEHOLDER[k + 1..] && s[1..][..|tail| - 1] == s[..|tail|][1..];
      PlaceholderStays(s[1..], home, k + 1);
      var n := Normalize(s, home);
      assert n[0] == s[0] && n[1..] == Normalize(s[1..], home);
      assert n[..|tail|] == [n[0]] + n[1..][..|tail| - 1];
    }
  }

  lemma {:induction false} RestLacks(s: string, n: nat)
    requires n <= |s| && !Contains(s, PLACEHOLDER)
    ensures !Contains(s[n..], PLACEHOLDER)
  {
    if n > 0 {
      assert s[1..][n - 1..] == s[n..];
      RestLacks(s[1..], n - 1);
    } else {
      assert s[0..] == s;
    }
  }

  // ----- the checked substitution of the schedule declaration

  /** substitute_home: rendering, and an error when a brace pair is left over. */
  function SubstituteHome(value: string, home: string): Result<string> {
    var rendered := Render(value, home);
    if Contains(rendered, "{{") || Contains(rendered, "}}") then Raise else Ok(rendered)
  }

  lemma {:induction false} PlaceholderHasBraces(s: string)
    requires Contains(s, PLACEHOLDER)
    ensures Contains(s, "{{")
  {
    if StartsWith(s, PLACEHOLDER) {
      assert s[..2] == s[..|PLACEHOLDER|][..2] == "{{";
    } else {
      PlaceholderHasBraces(s[1..]);
    }
  }

  /** A line without brace pairs comes back from its home-relative form unchanged. */
  lemma AdoptedLineRenders(raw: string, home: string)
    requires !Contains(raw, "{{") && !Contains(raw, "}}")
    ensures SubstituteHome(Normalize(raw, home), home) == Ok(raw)
  {
    if Contains(raw, PLACEHOLDER) {
      PlaceholderHasBraces(raw);
    }
    RoundTrip(raw, home);
  }

  lemma NormalizeHead(s: string, home: string)
    ensures StartsWith(s, home + "/") ==> Normalize(s, home) != "" && Normalize(s, home)[0] == '{'
  {
  }

  /** Normalizing does not make a text blank. */
  lemma {:induction false} NormalizeBlank(s: string, home: string)
    requires Blank(Normalize(s, home))
    ensures Blank(s)
    decreases |s|
  {
    var n := Normalize(s, home);
    NormalizeHead(s, home);
    BlankIff(n);
    BlankIff(s);
    if !StartsWith(s, home + "/") && s != "" {
      assert n[0] == s[0] && n[1..] == Normalize(s[1..], home);
      BlankIff(n[1..]);
      assert forall i :: 0 <= i < |n| - 1 ==> n[1..][i] == n[i + 1];
      NormalizeBlank(s[1..], home);
      BlankIff(s[1..]);
      assert forall i :: 0 < i < |s| ==> s[i] == s[1..][i - 1];
    }
  }

  /** Normalizing leaves a text alone exactly if no path below the home is in it. */
  lemma {:induction false} NormalStableIff(s: string, home: string)
    requires home != "" && home[0] == '/'
    ensures Normalize(s, home) == s <==> !Contains(s, home + "/")
  {
    if StartsWith(s, home + "/") {
      assert Normalize(s, home)[0] == '{' && s[0] == s[..|home| + 1][0] == '/';
    } else if s != "" {
      NormalStableIff(s[1..], home);
      assert s == [s[0]] + s[1..];
      assert Normalize(s, home)[1..] == Normalize(s[1..], home);
    }
  }

  /** A home path below a home path: normalizing is not idempotent. */
  lemma NormalizingTwice()
    ensures Normalize("/r/r/x", "/r") == PLACEHOLDER + "/r/x"
    ensures Normalize(PLACEHOLDER + "/r/x", "/r") == PLACEHOLDER + PLACEHOLDER + "/x"
  {
    var home := "/r";
    NormalizeBelow("r/x", home);
    assert "/r/r/x" == home + "/" + "r/x";
    TooShort("r/x"[1..], home + "/");
    assert "r/x"[..3][0] != (home + "/")[0];
    assert !Contains("r/x", home + "/");
    NormalStableIff("r/x", home);
    assert Normalize("/r/r/x", home) == PLACEHOLDER + "/" + "r/x" == PLACEHOLDER + "/r/x";
    NoSlashPrefix(PLACEHOLDER, "/r/x", home);
    NormalizeBelow("x", home);
    assert "/r/x" == home + "/" + "x";
    TooShort("x", home + "/");
    NormalStableIff("x", home);
    assert PLACEHOLDER + Normalize("/r/x", home) == PLACEHOLDER + (PLACEHOLDER + "/" + "x") == PLACEHOLDER + PLACEHOLDER + "/x";
  }

  lemma {:induction false} TooShort(s: string, p: string)
    requires |s| < |p|
    ensures !Contains(s, p)
  {
    if s != "" {
      TooShort(s[1..], p);
    }
  }

  lemma NormalizeBelow(rest: string, home: string)
    requires home != ""
    ensures Normalize(home + "/" + rest, home) == PLACEHOLDER + "/" + Normalize(rest, home)
  {
    var s := home + "/" + rest;
    assert s[..|home| + 1] == home + "/" && s[|home| + 1..] == rest;
  }

  lemma {:induction false} NoSlashPrefix(before: string, rest: string, home: string)
    requires home != "" && home[0] == '/' && '/' !in before
    ensures Normalize(before + rest, home) == before + Normalize(rest, home)
  {
    if before == "" {
      assert before + rest == rest;
    } else {
      var s := before + rest;
      assert s[0] == before[0] && s[1..] == before[1..] + rest;
      assert |s| >= |home| + 1 ==> s[..|home| + 1][0] == s[0];
      NoSlashPrefix(before[1..], rest, home);
    }
  }
}
