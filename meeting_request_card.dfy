/** The meeting request card
    (whattime_example/components/meeting-request-card.tsx): the link to the
    meeting's page, made from its title, the variant of the response-rate
    badge, and the two counts it shows. */
module MeetingRequestCard {
  import opened Wrappers
  import opened JsStrings
  import opened Seqs

  /** `s.replace(/\s+/g, "-")`: each maximal run of white space becomes one
      "-"; nothing else changes. */
  function ReplaceWhitespaceRuns(s: string): (r: string)
    ensures NoWhitespace(r)
    decreases |s|
  {
    if s == [] then []
    else if IsWhitespace(s[0]) then
      var rest := TrimStart(s);
      "-" + ReplaceWhitespaceRuns(rest)
    else [s[0]] + ReplaceWhitespaceRuns(s[1..])
  }

  /** The slug of the link `/meeting/<slug>`: the title in lower case with
      its white-space runs replaced. */
  function Slug(title: string): (slug: string)
    ensures NoWhitespace(slug)
  {
    ReplaceWhitespaceRuns(ToLower(title))
  }

  /** A text that uses no white space passes through unchanged in front. */
  lemma {:induction false} WordPrefix(w: string, x: string)
    requires NoWhitespace(w)
    ensures ReplaceWhitespaceRuns(w + x) == w + ReplaceWhitespaceRuns(x)
  {
    if w != [] {
      assert (w + x)[0] == w[0];
      assert (w + x)[1..] == w[1..] + x;
      assert !IsWhitespace(w[0]);
      assert ReplaceWhitespaceRuns(w + x) == [w[0]] + ReplaceWhitespaceRuns(w[1..] + x);
      WordPrefix(w[1..], x);
      assert [w[0]] + (w[1..] + ReplaceWhitespaceRuns(x)) == w + ReplaceWhitespaceRuns(x);
    } else {
      assert w + x == x;
    }
  }

  /** Leading white space before a non-white character is skipped by `TrimStart`. */
  lemma TrimStartAfterBlank(run: string, x: string)
    requires IsBlank(run)
    requires x == [] || !IsWhitespace(x[0])
    ensures TrimStart(run + x) == x
  {
    LeadingEndIs(run + x, 0, |run|);
    assert (run + x)[|run|..] == x;
  }

  /** A whole run of white space in front becomes one "-". */
  lemma RunPrefix(run: string, x: string)
    requires run != [] && IsBlank(run)
    requires x == [] || !IsWhitespace(x[0])
    ensures ReplaceWhitespaceRuns(run + x) == "-" + ReplaceWhitespaceRuns(x)
  {
    assert (run + x)[0] == run[0];
    TrimStartAfterBlank(run, x);
  }

  /** Words separated by runs of white space. */
  function Interleave(words: seq<string>, runs: seq<string>): (s: string)
    requires |words| >= 1 && |runs| == |words| - 1
    ensures words[0] <= s
    ensures |words| == 1 ==> s == words[0]
  {
    if |words| == 1 then words[0] else words[0] + runs[0] + Interleave(words[1..], runs[1..])
  }

  /** Joining words with white-space runs and replacing the runs gives the
      words joined with "-": a first or last word may be empty (leading or
      trailing white space), a middle one may not (the runs are maximal). */
  lemma {:induction false} ReplaceRunsOfWords(words: seq<string>, runs: seq<string>)
    requires |words| >= 1 && |runs| == |words| - 1
    requires forall i :: 0 <= i < |words| ==> NoWhitespace(words[i])
    requires forall i :: 0 < i < |words| - 1 ==> words[i] != ""
    requires forall i :: 0 <= i < |runs| ==> runs[i] != "" && IsBlank(runs[i])
    ensures ReplaceWhitespaceRuns(Interleave(words, runs)) == Join(words, "-")
  {
    if |words| == 1 {
      WordPrefix(words[0], []);
      assert words[0] + [] == words[0];
    } else {
      var rest := Interleave(words[1..], runs[1..]);
      assert Interleave(words, runs) == words[0] + (runs[0] + rest);
      WordPrefix(words[0], runs[0] + rest);
      assert rest == [] || !IsWhitespace(rest[0]) by {
        if words[1] != [] {
          assert words[1][0] == rest[0];
        } else {
          assert |words| == 2;
          assert rest == words[1];
        }
      }
      RunPrefix(runs[0], rest);
      ReplaceRunsOfWords(words[1..], runs[1..]);
    }
  }

  function NotDash(c: char): bool { c != '-' }

  /** A character of the title that survives as itself. */
  function KeptChar(c: char): bool { !IsWhitespace(c) && c != '-' }

  /** Apart from the dashes, the characters are those of the text that are
      not white space, in the same order. */
  lemma {:induction false} RunsKeepOrder(s: string)
    ensures Filter(ReplaceWhitespaceRuns(s), NotDash) == Filter(s, KeptChar)
    decreases |s|
  {
    if s != [] {
      if IsWhitespace(s[0]) {
        var rest := TrimStart(s);
        var k := |s| - |rest|;
        assert s == s[..k] + rest;
        RunsKeepOrder(rest);
        var r := ReplaceWhitespaceRuns(rest);
        assert ("-" + r)[1..] == r;
        FilterConcat(s[..k], rest, KeptChar);
        FilterNonEmpty(s[..k], KeptChar);
      } else {
        RunsKeepOrder(s[1..]);
        var r := ReplaceWhitespaceRuns(s[1..]);
        assert ([s[0]] + r)[1..] == r;
      }
    }
  }

  /** The slug keeps every character of the title that is neither white
      space nor "-", lowercased and in order. */
  lemma SlugKeepsOrder(title: string)
    ensures Filter(Slug(title), NotDash) == Filter(ToLower(title), KeptChar)
  {
    RunsKeepOrder(ToLower(title));
  }

  /** The response-rate badge: "default" above 50%, "outline" otherwise. */
  function BadgeVariant(responseRate: int): (variant: string)
    ensures variant == "default" <==> responseRate > 50
    ensures variant == "outline" <==> responseRate <= 50
  {
    if responseRate > 50 then "default" else "outline"
  }

  const GroupsPrefix := "Participant Groups ("
  const TimesPrefix := "Proposed Times ("

  /** `Participant Groups (${groups.length})` and the same for the times. */
  function CountLabel(prefix: string, count: nat): string {
    prefix + NatToString(count) + ")"
  }

  /** Each count label reads back as the length of its list. */
  lemma CountLabelsShowLengths(groups: seq<string>, timeOptions: seq<string>)
    ensures ParseInt(CountLabel(GroupsPrefix, |groups|)[|GroupsPrefix|..]) == Some(|groups|)
    ensures ParseInt(CountLabel(TimesPrefix, |timeOptions|)[|TimesPrefix|..]) == Some(|timeOptions|)
  {
    CountLabelReadsBack(GroupsPrefix, |groups|);
    CountLabelReadsBack(TimesPrefix, |timeOptions|);
  }

  lemma CountLabelReadsBack(prefix: string, count: nat)
    ensures ParseInt(CountLabel(prefix, count)[|prefix|..]) == Some(count)
  {
    assert CountLabel(prefix, count)[|prefix|..] == NatToString(count) + ")";
    ParseNatToString(count, ")");
  }
}
