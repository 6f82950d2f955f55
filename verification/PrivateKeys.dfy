/** Which keys sanitising takes for private, however they are spelled. */
module PrivateKeys {
  import opened Common
  import opened Json
  import opened Content
  import opened Occurrences

  /** The same letter in either case, or a dash and an underscore. */
  predicate SameLetter(a: char, b: char) {
    || a == b
    || ('A' <= a <= 'Z' && a as int + 32 == b as int) || ('A' <= b <= 'Z' && b as int + 32 == a as int)
    || (a in {'-', '_'} && b in {'-', '_'})
  }

  predicate SameSpelling(k: string, l: string) {
    |k| == |l| && forall i | 0 <= i < |k| :: SameLetter(k[i], l[i])
  }

  lemma SameLettersAreBlankAlike(a: char, b: char)
    requires SameLetter(a, b)
    ensures IsBlank(a) <==> IsBlank(b)
    ensures NormalizedChar(a) == NormalizedChar(b)
  {
  }

  lemma {:induction false} StripLeftAlike(k: string, l: string)
    requires SameSpelling(k, l)
    ensures SameSpelling(StripLeft(k), StripLeft(l))
  {
    if k != [] {
      SameLettersAreBlankAlike(k[0], l[0]);
      if IsBlank(k[0]) { StripLeftAlike(k[1..], l[1..]); }
    }
  }

  lemma {:induction false} StripRightAlike(k: string, l: string)
    requires SameSpelling(k, l)
    ensures SameSpelling(StripRight(k), StripRight(l))
  {
    if k != [] {
      SameLettersAreBlankAlike(k[|k| - 1], l[|l| - 1]);
      if IsBlank(k[|k| - 1]) { StripRightAlike(k[..|k| - 1], l[..|l| - 1]); }
    }
  }

  /** A key is dropped or kept whatever case it is written in and whether it has dashes or underscores. */
  lemma SpellingDoesNotMatter(k: string, l: string)
    requires SameSpelling(k, l)
    ensures IsDroppedKey(k) <==> IsDroppedKey(l)
  {
    StripLeftAlike(k, l);
    StripRightAlike(StripLeft(k), StripLeft(l));
    var s, t := Strip(k), Strip(l);
    forall i | 0 <= i < |s| ensures NormalizedChar(s[i]) == NormalizedChar(t[i]) { SameLettersAreBlankAlike(s[i], t[i]); }
    assert NormalizedKey(k) == NormalizedKey(l);
  }

  lemma {:induction false} StripRightPadded(s: string, blank: char)
    requires IsBlank(blank)
    ensures StripRight(s + [blank]) == StripRight(s)
  {
    assert (s + [blank])[..|s|] == s;
  }

  lemma {:induction false} StripLeftPadded(s: string, blank: char)
    requires IsBlank(blank)
    ensures Strip(s + [blank]) == Strip(s)
  {
    if s != [] && IsBlank(s[0]) {
      assert (s + [blank])[1..] == s[1..] + [blank];
      StripLeftPadded(s[1..], blank);
    } else if s == [] {
      assert s + [blank] == [blank] && [blank][1..] == [];
    } else {
      StripRightPadded(s, blank);
    }
  }

  /** Nor does white space around it. */
  lemma PaddingDoesNotMatter(k: string, blank: char)
    requires IsBlank(blank)
    ensures IsDroppedKey([blank] + k) <==> IsDroppedKey(k)
    ensures IsDroppedKey(k + [blank]) <==> IsDroppedKey(k)
  {
    assert ([blank] + k)[1..] == k;
    StripLeftPadded(k, blank);
  }

  lemma {:induction false} StripOfPadded(before: string, core: string, after: string)
    requires IsAllBlank(before) && IsAllBlank(after)
    requires core != "" ==> !IsBlank(core[0]) && !IsBlank(core[|core| - 1])
    ensures Strip(before + core + after) == core
    decreases |before| + |after|
  {
    var whole := before + core + after;
    if after != "" {
      var init, last := after[..|after| - 1], after[|after| - 1];
      StripOfPadded(before, core, init);
      assert whole == (before + core + init) + [last];
      StripLeftPadded(before + core + init, last);
    } else if before != "" {
      StripOfPadded(before[1..], core, "");
      assert whole[1..] == before[1..] + core + "";
    } else {
      assert whole == core;
    }
  }

  /** The text is the key in small letters, with underscores for dashes and without the white space around. */
  ghost predicate KeyReads(key: string, text: string) {
    exists before, core, after :: IsAllBlank(before) && IsAllBlank(after) && key == before + core + after && IsWrittenAs(core, text)
  }

  ghost predicate IsWrittenAs(core: string, text: string) {
    && |core| == |text|
    && (core != "" ==> !IsBlank(core[0]) && !IsBlank(core[|core| - 1]))
    && forall i | 0 <= i < |core| :: text[i] ==
         if core[i] == '-' then '_' else if 'A' <= core[i] <= 'Z' then (core[i] as int + 32) as char else core[i]
  }

  lemma KeyReadsExactly(key: string, text: string)
    ensures KeyReads(key, text) <==> NormalizedKey(key) == text
  {
    StripExactly(key);
    var before, after :| IsAllBlank(before) && IsAllBlank(after) && key == before + Strip(key) + after;
    if NormalizedKey(key) == text { assert IsWrittenAs(Strip(key), text); }
    if KeyReads(key, text) {
      var b, core, a :| IsAllBlank(b) && IsAllBlank(a) && key == b + core + a && IsWrittenAs(core, text);
      StripOfPadded(b, core, a);
      assert NormalizedKey(key) == text;
    }
  }

  lemma {:induction false} IncludedInTheMiddle(before: string, part: string, after: string)
    ensures Includes(before + part + after, part)
  {
    var whole := before + part + after;
    if before == [] {
      assert whole == part + after;
    } else {
      assert whole[1..] == before[1..] + part + after;
      IncludedInTheMiddle(before[1..], part, after);
    }
  }

  lemma {:induction false} IncludedSomewhere(s: string, part: string) returns (before: string, after: string)
    requires Includes(s, part)
    ensures s == before + part + after
  {
    if part <= s {
      before, after := "", s[|part|..];
    } else {
      var inner;
      inner, after := IncludedSomewhere(s[1..], part);
      before := [s[0]] + inner;
      assert s == [s[0]] + s[1..] == before + part + after;
    }
  }

  lemma IncludesExactly(s: string, part: string)
    ensures Includes(s, part) <==> exists before, after :: s == before + part + after
  {
    if Includes(s, part) { var _, _ := IncludedSomewhere(s, part); }
    if before, after :| s == before + part + after { IncludedInTheMiddle(before, part, after); }
  }

  /** The word is one of the private ones, ends in one of them, has a transcript in it, or starts like a log
      or like hidden reasoning. */
  ghost predicate IsPrivateWord(text: string) {
    || text in {"__context_meta__", "raw_logs", "raw_tool_log", "raw_tool_logs", "tool_logs", "stdout", "stderr", "transcript",
                "raw_transcript", "tool_output", "tool_outputs", "chain_of_thought", "hidden_reasoning", "internal_reasoning",
                "reasoning_trace", "scratchpad"}
    || (exists before :: text == before + "_raw")
    || (exists before, after :: text == before + "transcript" + after)
    || "raw_log" <= text || "tool_log" <= text || "hidden_reasoning" <= text
  }

  /** A key is private exactly when it reads as a private word, and dropped exactly when it is private or
      reads as the lanes that do not belong. */
  lemma DroppedExactly(key: string)
    ensures IsPrivateKey(key) <==> exists text :: KeyReads(key, text) && IsPrivateWord(text)
    ensures IsDroppedKey(key) <==> IsPrivateKey(key) || KeyReads(key, "unrelated_lanes")
  {
    var text := NormalizedKey(key);
    KeyReadsExactly(key, text);
    KeyReadsExactly(key, "unrelated_lanes");
    PrivateWordExactly(key, text);
    if other :| KeyReads(key, other) && IsPrivateWord(other) { KeyReadsExactly(key, other); }
  }

  lemma PrivateWordExactly(key: string, text: string)
    requires text == NormalizedKey(key)
    ensures IsPrivateKey(key) <==> IsPrivateWord(text)
  {
    IncludesExactly(text, "transcript");
    if EndsWith(text, "_raw") { assert text == text[..|text| - 4] + "_raw"; }
    if before :| text == before + "_raw" { assert text[|text| - 4..] == "_raw"; }
  }

  /** Among members, a lane summary that names another lane is dropped as well. */
  lemma DroppedMemberExactly(key: string, item: Json, lane: Option<string>)
    ensures IsDroppedMember(key, item, lane) <==>
      || IsDroppedKey(key)
      || (key == "lane_summary" && lane.Some? && AtKeys(item, ["lane_id"]).Some?
          && AtKeys(item, ["lane_id"]) != Some(Null) && AtKeys(item, ["lane_id"]) != Some(Text(lane.value)))
  {
    assert ["lane_id"][1..] == [];
  }
}
