/** The voice-over text the render job hands to speech synthesis: the script
    with every bracketed stage direction removed (`/\[.*?\]/g`) and then every
    hashtag token removed (`/#\w+/g`). */
module Voiceover {
  import opened Wrappers
  import opened Text

  // ---------------------------------------------------------------------
  // `/\[.*?\]/g`

  /** Where the lazy `.*?\]` that follows a `[` stops: the first `]` of `s`,
      provided no line terminator comes before it (`.` does not match one). */
  function CloseAt(s: string): (r: Option<nat>)
    ensures r.Some? ==> r.value < |s| && s[r.value] == ']'
    ensures r.Some? ==> forall k :: 0 <= k < r.value ==> s[k] != ']' && !IsLineTerminator(s[k])
    ensures r.None? ==> forall j :: 0 <= j < |s| && s[j] == ']' ==>
                          exists k :: 0 <= k < j && IsLineTerminator(s[k])
  {
    if |s| == 0 then None
    else if s[0] == ']' then Some(0)
    else if IsLineTerminator(s[0]) then None
    else match CloseAt(s[1..])
      case Some(j) => Some(j + 1)
      case None => None
  }

  /** `s.replace(/\[.*?\]/g, '')`: scanning left to right, a `[` whose span
      closes on the same line is dropped together with that span; any other
      character is kept. */
  function RemoveBracketed(s: string): string {
    if |s| == 0 then []
    else if s[0] == '[' && CloseAt(s[1..]).Some? then RemoveBracketed(s[CloseAt(s[1..]).value + 2..])
    else [s[0]] + RemoveBracketed(s[1..])
  }

  /** No `[` in `s` starts a span `/\[.*?\]/` would match. */
  predicate NoBracketSpan(s: string) {
    forall i :: 0 <= i < |s| && s[i] == '[' ==> CloseAt(s[i + 1..]).None?
  }

  // ---------------------------------------------------------------------
  // `/#\w+/g`

  /** Length of the run of word characters at the start of `s` (greedy `\w+`). */
  function WordRun(s: string): (n: nat)
    ensures n <= |s|
    ensures forall k :: 0 <= k < n ==> IsWordChar(s[k])
    ensures n < |s| ==> !IsWordChar(s[n])
  {
    if |s| == 0 || !IsWordChar(s[0]) then 0 else 1 + WordRun(s[1..])
  }

  /** `s.replace(/#\w+/g, '')`: a `#` followed by at least one word character
      is dropped together with the whole run; any other character is kept. */
  function RemoveHashtags(s: string): string {
    if |s| == 0 then []
    else if s[0] == '#' && WordRun(s[1..]) > 0 then RemoveHashtags(s[1 + WordRun(s[1..])..])
    else [s[0]] + RemoveHashtags(s[1..])
  }

  /** No `#` in `s` is followed by a word character, so `/#\w+/` matches nowhere. */
  predicate NoHashtag(s: string) {
    forall i :: 0 <= i < |s| - 1 && s[i] == '#' ==> !IsWordChar(s[i + 1])
  }

  /** The text passed to speech synthesis (server.ts, line 113). */
  function Sanitise(script: string): string {
    RemoveHashtags(RemoveBracketed(script))
  }

  // ---------------------------------------------------------------------
  // Each pass only deletes characters

  lemma {:induction false} RemoveBracketedIsSubsequence(s: string)
    ensures IsSubsequence(RemoveBracketed(s), s)
  {
    if |s| > 0 {
      if s[0] == '[' && CloseAt(s[1..]).Some? {
        var rest := s[CloseAt(s[1..]).value + 2..];
        RemoveBracketedIsSubsequence(rest);
        SubsequenceOfSuffix(RemoveBracketed(rest), s, CloseAt(s[1..]).value + 2);
      } else {
        RemoveBracketedIsSubsequence(s[1..]);
        assert ([s[0]] + RemoveBracketed(s[1..]))[1..] == RemoveBracketed(s[1..]);
      }
    }
  }

  lemma {:induction false} RemoveHashtagsIsSubsequence(s: string)
    ensures IsSubsequence(RemoveHashtags(s), s)
  {
    if |s| > 0 {
      if s[0] == '#' && WordRun(s[1..]) > 0 {
        var rest := s[1 + WordRun(s[1..])..];
        RemoveHashtagsIsSubsequence(rest);
        SubsequenceOfSuffix(RemoveHashtags(rest), s, 1 + WordRun(s[1..]));
      } else {
        RemoveHashtagsIsSubsequence(s[1..]);
        assert ([s[0]] + RemoveHashtags(s[1..]))[1..] == RemoveHashtags(s[1..]);
      }
    }
  }

  /** A subsequence of a suffix is a subsequence of the whole. */
  lemma {:induction false} SubsequenceOfSuffix(a: string, s: string, n: nat)
    requires n <= |s| && IsSubsequence(a, s[n..])
    ensures IsSubsequence(a, s)
    decreases n
  {
    if n > 0 {
      assert s[n - 1..][1..] == s[n..];
      SubsequenceOfSuffix(a, s, n - 1);
    }
  }

  /** The voice-over text keeps the script's characters in their order, and
      keeps every character before the first `[` or `#` of the script, the
      rest being sanitised on its own. */
  lemma SanitiseIsSubsequence(script: string)
    ensures IsSubsequence(Sanitise(script), script)
    ensures forall n :: 0 <= n <= |script| && '[' !in script[..n] && '#' !in script[..n] ==>
              Sanitise(script) == script[..n] + Sanitise(script[n..])
  {
    RemoveBracketedIsSubsequence(script);
    RemoveHashtagsIsSubsequence(RemoveBracketed(script));
    SubsequenceTransitive(Sanitise(script), RemoveBracketed(script), script);
    forall n | 0 <= n <= |script| && '[' !in script[..n] && '#' !in script[..n]
      ensures Sanitise(script) == script[..n] + Sanitise(script[n..])
    {
      SanitiseSplitAt(script, n);
    }
  }

  lemma SanitiseSplitAt(script: string, n: nat)
    requires n <= |script| && '[' !in script[..n] && '#' !in script[..n]
    ensures Sanitise(script) == script[..n] + Sanitise(script[n..])
  {
    assert script == script[..n] + script[n..];
    SanitisePlainPrefix(script[..n], script[n..]);
  }

  // ---------------------------------------------------------------------
  // No match survives

  /** When the scan from a position does not close a span, neither does the
      scan of what `RemoveBracketed` leaves of it. */
  lemma {:induction false} UnclosedStaysUnclosed(s: string)
    requires CloseAt(s).None?
    ensures CloseAt(RemoveBracketed(s)).None?
  {
    if |s| > 0 {
      if s[0] == '[' && CloseAt(s[1..]).Some? {
        assert false;
      }
      if !IsLineTerminator(s[0]) {
        UnclosedStaysUnclosed(s[1..]);
        assert ([s[0]] + RemoveBracketed(s[1..]))[1..] == RemoveBracketed(s[1..]);
      }
    }
  }

  lemma {:induction false} RemoveBracketedLeavesNoSpan(s: string)
    ensures NoBracketSpan(RemoveBracketed(s))
  {
    if |s| > 0 {
      if s[0] == '[' && CloseAt(s[1..]).Some? {
        RemoveBracketedLeavesNoSpan(s[CloseAt(s[1..]).value + 2..]);
      } else {
        RemoveBracketedLeavesNoSpan(s[1..]);
        KeptFirstLeavesNoSpan(s);
      }
    }
  }

  /** Keeping a first character that opens no span adds no span. */
  lemma KeptFirstLeavesNoSpan(s: string)
    requires |s| > 0 && !(s[0] == '[' && CloseAt(s[1..]).Some?)
    requires NoBracketSpan(RemoveBracketed(s[1..]))
    ensures NoBracketSpan([s[0]] + RemoveBracketed(s[1..]))
  {
    var tail := RemoveBracketed(s[1..]);
    var r := [s[0]] + tail;
    if s[0] == '[' {
      UnclosedStaysUnclosed(s[1..]);
    }
    forall i | 0 <= i < |r| && r[i] == '['
      ensures CloseAt(r[i + 1..]).None?
    {
      if i == 0 {
        assert r[1..] == tail;
      } else {
        assert r[i + 1..] == tail[i..];
        assert tail[i - 1] == r[i];
      }
    }
  }

  /** If `s` is empty or starts with a non-word character, so does what
      `RemoveHashtags` leaves of it. */
  lemma {:induction false} HashtagsKeepNonWordHead(s: string)
    requires |s| > 0 && !IsWordChar(s[0])
    ensures var r := RemoveHashtags(s); |r| == 0 || !IsWordChar(r[0])
    decreases |s|
  {
    if s[0] == '#' && WordRun(s[1..]) > 0 {
      var rest := s[1 + WordRun(s[1..])..];
      if |rest| > 0 {
        assert rest[0] == s[1..][WordRun(s[1..])];
        HashtagsKeepNonWordHead(rest);
      }
    }
  }

  lemma {:induction false} RemoveHashtagsLeavesNoHashtag(s: string)
    ensures NoHashtag(RemoveHashtags(s))
  {
    if |s| > 0 {
      if s[0] == '#' && WordRun(s[1..]) > 0 {
        RemoveHashtagsLeavesNoHashtag(s[1 + WordRun(s[1..])..]);
      } else {
        var tail := RemoveHashtags(s[1..]);
        var r := [s[0]] + tail;
        RemoveHashtagsLeavesNoHashtag(s[1..]);
        if s[0] == '#' && |s| > 1 {
          assert !IsWordChar(s[1..][0]);
          HashtagsKeepNonWordHead(s[1..]);
        }
        forall i | 0 <= i < |r| - 1 && r[i] == '#'
          ensures !IsWordChar(r[i + 1])
        {
          if i > 0 {
            assert r[i] == tail[i - 1] && r[i + 1] == tail[i];
          }
        }
      }
    }
  }

  /** Removing hashtags never removes `]` or a line terminator, so an
      unclosed `[` stays unclosed. */
  lemma {:induction false} HashtagsKeepUnclosed(s: string)
    requires CloseAt(s).None?
    ensures CloseAt(RemoveHashtags(s)).None?
  {
    if |s| > 0 {
      if s[0] == '#' && WordRun(s[1..]) > 0 {
        var n := 1 + WordRun(s[1..]);
        CloseAtOfSuffix(s, n);
        HashtagsKeepUnclosed(s[n..]);
      } else if !IsLineTerminator(s[0]) {
        HashtagsKeepUnclosed(s[1..]);
        assert ([s[0]] + RemoveHashtags(s[1..]))[1..] == RemoveHashtags(s[1..]);
      }
    }
  }

  /** Dropping a prefix of `#` and word characters keeps a scan unclosed. */
  lemma {:induction false} CloseAtOfSuffix(s: string, n: nat)
    requires n <= |s| && CloseAt(s).None?
    requires forall k :: 0 <= k < n ==> s[k] == '#' || IsWordChar(s[k])
    ensures CloseAt(s[n..]).None?
    decreases n
  {
    if n > 0 {
      assert s[1..][n - 1..] == s[n..];
      CloseAtOfSuffix(s[1..], n - 1);
    }
  }

  lemma {:induction false} HashtagsKeepNoBracketSpan(s: string)
    requires NoBracketSpan(s)
    ensures NoBracketSpan(RemoveHashtags(s))
  {
    if |s| > 0 {
      if s[0] == '#' && WordRun(s[1..]) > 0 {
        var n := 1 + WordRun(s[1..]);
        assert NoBracketSpan(s[n..]) by {
          forall i | 0 <= i < |s[n..]| && s[n..][i] == '['
            ensures CloseAt(s[n..][i + 1..]).None?
          {
            assert s[n..][i + 1..] == s[n + i + 1..];
          }
        }
        HashtagsKeepNoBracketSpan(s[n..]);
      } else {
        var tail := RemoveHashtags(s[1..]);
        var r := [s[0]] + tail;
        assert NoBracketSpan(s[1..]) by {
          forall i | 0 <= i < |s[1..]| && s[1..][i] == '['
            ensures CloseAt(s[1..][i + 1..]).None?
          {
            assert s[1..][i + 1..] == s[i + 2..];
          }
        }
        HashtagsKeepNoBracketSpan(s[1..]);
        if s[0] == '[' {
          HashtagsKeepUnclosed(s[1..]);
        }
        forall i | 0 <= i < |r| && r[i] == '['
          ensures CloseAt(r[i + 1..]).None?
        {
          if i == 0 {
            assert r[1..] == tail;
          } else {
            assert r[i + 1..] == tail[i..];
            assert tail[i - 1] == r[i];
          }
        }
      }
    }
  }

  /** The voice-over text contains no bracketed direction and no hashtag token
      that the two replacements would still match. */
  lemma SanitiseLeavesNoMarkup(script: string)
    ensures NoBracketSpan(Sanitise(script))
    ensures NoHashtag(Sanitise(script))
  {
    RemoveBracketedLeavesNoSpan(script);
    HashtagsKeepNoBracketSpan(RemoveBracketed(script));
    RemoveHashtagsLeavesNoHashtag(RemoveBracketed(script));
  }

  // ---------------------------------------------------------------------
  // What is kept

  lemma {:induction false} RemoveBracketedIdentity(s: string)
    requires NoBracketSpan(s)
    ensures RemoveBracketed(s) == s
  {
    if |s| > 0 {
      assert s[0] == '[' ==> CloseAt(s[1..]).None?;
      assert NoBracketSpan(s[1..]) by {
        forall i | 0 <= i < |s[1..]| && s[1..][i] == '['
          ensures CloseAt(s[1..][i + 1..]).None?
        {
          assert s[1..][i + 1..] == s[i + 2..];
        }
      }
      RemoveBracketedIdentity(s[1..]);
      assert [s[0]] + s[1..] == s;
    }
  }

  lemma {:induction false} RemoveHashtagsIdentity(s: string)
    requires NoHashtag(s)
    ensures RemoveHashtags(s) == s
  {
    if |s| > 0 {
      if s[0] == '#' && |s| > 1 {
        assert !IsWordChar(s[1]);
      }
      assert NoHashtag(s[1..]) by {
        forall i | 0 <= i < |s[1..]| - 1 && s[1..][i] == '#'
          ensures !IsWordChar(s[1..][i + 1])
        {
          assert s[1..][i] == s[i + 1] && s[1..][i + 1] == s[i + 2];
        }
      }
      RemoveHashtagsIdentity(s[1..]);
      assert [s[0]] + s[1..] == s;
    }
  }

  /** Sanitising twice is sanitising once. */
  lemma SanitiseIdempotent(script: string)
    ensures Sanitise(Sanitise(script)) == Sanitise(script)
  {
    var v := Sanitise(script);
    SanitiseLeavesNoMarkup(script);
    RemoveBracketedIdentity(v);
    RemoveHashtagsIdentity(v);
  }

  /** Text without `[` has no direction to remove. */
  lemma RemoveBracketedNoOpen(s: string)
    requires '[' !in s
    ensures RemoveBracketed(s) == s
  {
    assert NoBracketSpan(s) by {
      forall i | 0 <= i < |s|
        ensures s[i] != '['
      {
        assert s[i] in s;
      }
    }
    RemoveBracketedIdentity(s);
  }

  /** Text without `#` has no tag to remove. */
  lemma RemoveHashtagsNoHash(s: string)
    requires '#' !in s
    ensures RemoveHashtags(s) == s
  {
    assert NoHashtag(s) by {
      forall i | 0 <= i < |s|
        ensures s[i] != '#'
      {
        assert s[i] in s;
      }
    }
    RemoveHashtagsIdentity(s);
  }

  /** A script with no `[` and no `#` is spoken exactly as written. */
  lemma SanitisePlainScript(script: string)
    requires '[' !in script && '#' !in script
    ensures Sanitise(script) == script
  {
    RemoveBracketedNoOpen(script);
    RemoveHashtagsNoHash(script);
  }

  /** Neither pass removes a line terminator: a `[...]` span never crosses
      one and a hashtag token never contains one. */
  lemma {:induction false} RemoveBracketedKeepsLines(s: string)
    ensures Filter(IsLineTerminator, RemoveBracketed(s)) == Filter(IsLineTerminator, s)
  {
    if |s| > 0 {
      if s[0] == '[' && CloseAt(s[1..]).Some? {
        var j := CloseAt(s[1..]).value;
        RemoveBracketedKeepsLines(s[j + 2..]);
        assert s == s[..j + 2] + s[j + 2..];
        FilterAppend(IsLineTerminator, s[..j + 2], s[j + 2..]);
        NoTerminators(s[..j + 2]);
      } else {
        RemoveBracketedKeepsLines(s[1..]);
        assert ([s[0]] + RemoveBracketed(s[1..]))[0] == s[0];
        assert ([s[0]] + RemoveBracketed(s[1..]))[1..] == RemoveBracketed(s[1..]);
      }
    }
  }

  lemma {:induction false} RemoveHashtagsKeepsLines(s: string)
    ensures Filter(IsLineTerminator, RemoveHashtags(s)) == Filter(IsLineTerminator, s)
  {
    if |s| > 0 {
      if s[0] == '#' && WordRun(s[1..]) > 0 {
        var n := 1 + WordRun(s[1..]);
        RemoveHashtagsKeepsLines(s[n..]);
        assert s == s[..n] + s[n..];
        FilterAppend(IsLineTerminator, s[..n], s[n..]);
        NoTerminators(s[..n]);
      } else {
        RemoveHashtagsKeepsLines(s[1..]);
        assert ([s[0]] + RemoveHashtags(s[1..]))[0] == s[0];
        assert ([s[0]] + RemoveHashtags(s[1..]))[1..] == RemoveHashtags(s[1..]);
      }
    }
  }

  lemma {:induction false} NoTerminators(s: string)
    requires forall k :: 0 <= k < |s| ==> !IsLineTerminator(s[k])
    ensures Filter(IsLineTerminator, s) == []
  {
    if |s| > 0 {
      NoTerminators(s[1..]);
    }
  }

  /** The voice-over text keeps every line break of the script. */
  lemma SanitiseKeepsLines(script: string)
    ensures Filter(IsLineTerminator, Sanitise(script)) == Filter(IsLineTerminator, script)
  {
    RemoveBracketedKeepsLines(script);
    RemoveHashtagsKeepsLines(RemoveBracketed(script));
  }

  /** The stage direction and the tag of a typical script line are removed and
      the words between them, with their surrounding spaces, are kept. */
  lemma SanitiseExample()
    ensures Sanitise("[excited] Keep going! #motivation") == " Keep going! "
  {
    ExampleBracketPass();
    ExampleHashtagPass();
  }

  /** A closed direction at the start of the text is dropped whole. */
  lemma DropLeadingDirection(d: string, rest: string)
    requires forall k :: 0 <= k < |d| ==> d[k] != ']' && !IsLineTerminator(d[k])
    ensures RemoveBracketed("[" + d + "]" + rest) == RemoveBracketed(rest)
  {
    var s := "[" + d + "]" + rest;
    assert s[1..] == d + "]" + rest;
    CloseAtFirstBracket(s[1..], |d|);
    assert s[|d| + 2..] == rest;
  }

  /** A trailing tag after tag-free text is dropped whole. */
  lemma DropTrailingTag(p: string, w: string)
    requires '#' !in p && |w| > 0
    requires forall k :: 0 <= k < |w| ==> IsWordChar(w[k])
    ensures RemoveHashtags(p + "#" + w) == p
  {
    var tag := "#" + w;
    assert tag[1..] == w;
    assert WordRun(w) == |w|;
    assert tag[1 + |w|..] == [];
    RemoveHashtagsPrefix(p, tag);
    assert p + tag == p + "#" + w;
  }

  lemma ExampleBracketPass()
    ensures RemoveBracketed("[excited] Keep going! #motivation") == " Keep going! #motivation"
  {
    var a := " Keep going! #motivation";
    var d := "excited";
    assert "[" + d + "]" == "[excited]";
    assert "[excited]" + a == "[excited] Keep going! #motivation";
    assert forall k :: 0 <= k < |d| ==> d[k] != ']' && !IsLineTerminator(d[k]);
    DropLeadingDirection(d, a);
    ExampleTailUntouched();
  }

  lemma ExampleTailUntouched()
    ensures RemoveBracketed(" Keep going! #motivation") == " Keep going! #motivation"
  {
    assert '[' !in " Keep going! #motivation";
    RemoveBracketedNoOpen(" Keep going! #motivation");
  }

  lemma ExampleHashtagPass()
    ensures RemoveHashtags(" Keep going! #motivation") == " Keep going! "
  {
    assert " Keep going! #motivation" == " Keep going! " + "#" + "motivation";
    DropTrailingTag(" Keep going! ", "motivation");
  }

  /** The scan closes at the first `]` when no line terminator precedes it. */
  lemma CloseAtFirstBracket(s: string, j: nat)
    requires j < |s| && s[j] == ']'
    requires forall k :: 0 <= k < j ==> s[k] != ']' && !IsLineTerminator(s[k])
    ensures CloseAt(s) == Some(j)
  {
  }

  /** Bracket removal over a prefix without `[` keeps the prefix. */
  lemma {:induction false} RemoveBracketedPrefix(p: string, s: string)
    requires '[' !in p
    ensures RemoveBracketed(p + s) == p + RemoveBracketed(s)
  {
    if |p| > 0 {
      assert (p + s)[0] == p[0];
      assert (p + s)[1..] == p[1..] + s;
      assert p[0] in p;
      RemoveBracketedPrefix(p[1..], s);
      assert [p[0]] + (p[1..] + RemoveBracketed(s)) == p + RemoveBracketed(s);
    } else {
      assert p + s == s;
    }
  }

  /** A `[` that no `]` closes on its own line is kept. */
  lemma KeepUnclosedOpen(rest: string)
    requires CloseAt(rest).None?
    ensures RemoveBracketed("[" + rest) == "[" + RemoveBracketed(rest)
  {
    assert ("[" + rest)[1..] == rest;
  }

  /** A `#` not followed by a word character is kept. */
  lemma KeepBareHash(rest: string)
    requires |rest| == 0 || !IsWordChar(rest[0])
    ensures RemoveHashtags("#" + rest) == "#" + RemoveHashtags(rest)
  {
    assert ("#" + rest)[1..] == rest;
  }

  /** A `#` and the whole run of word characters after it are dropped. */
  lemma DropTag(w: string, rest: string)
    requires |w| > 0 && forall k :: 0 <= k < |w| ==> IsWordChar(w[k])
    requires |rest| == 0 || !IsWordChar(rest[0])
    ensures RemoveHashtags("#" + w + rest) == RemoveHashtags(rest)
  {
    var s := "#" + w + rest;
    assert s[1..] == w + rest;
    WordRunOf(w, rest);
    assert s[1 + |w|..] == rest;
  }

  lemma {:induction false} WordRunOf(w: string, rest: string)
    requires forall k :: 0 <= k < |w| ==> IsWordChar(w[k])
    requires |rest| == 0 || !IsWordChar(rest[0])
    ensures WordRun(w + rest) == |w|
  {
    if |w| > 0 {
      assert (w + rest)[1..] == w[1..] + rest;
      WordRunOf(w[1..], rest);
    } else {
      assert w + rest == rest;
    }
  }

  /** Text before the first `[` or `#` is spoken as written, and what follows
      it is sanitised on its own. */
  lemma SanitisePlainPrefix(p: string, s: string)
    requires '[' !in p && '#' !in p
    ensures Sanitise(p + s) == p + Sanitise(s)
  {
    RemoveBracketedPrefix(p, s);
    RemoveHashtagsPrefix(p, RemoveBracketed(s));
  }

  /** A closed direction at the start of the script is not spoken. */
  lemma SanitiseDropsDirection(d: string, rest: string)
    requires forall k :: 0 <= k < |d| ==> d[k] != ']' && !IsLineTerminator(d[k])
    ensures Sanitise("[" + d + "]" + rest) == Sanitise(rest)
  {
    DropLeadingDirection(d, rest);
  }

  /** Hashtag removal over a prefix without `#` keeps the prefix. */
  lemma {:induction false} RemoveHashtagsPrefix(p: string, s: string)
    requires '#' !in p
    ensures RemoveHashtags(p + s) == p + RemoveHashtags(s)
  {
    if |p| > 0 {
      assert (p + s)[0] == p[0];
      assert (p + s)[1..] == p[1..] + s;
      assert p[0] in p;
      RemoveHashtagsPrefix(p[1..], s);
      assert [p[0]] + (p[1..] + RemoveHashtags(s)) == p + RemoveHashtags(s);
    } else {
      assert p + s == s;
    }
  }
}
