/** The read callbacks' `text.filter { $0 != "\n" }`, applied to the decoded
    text before it is parsed as a URL.

    Swift filters Characters, that is extended grapheme clusters, and a CR
    followed by an LF is ONE Character (rule GB3 of Unicode Standard Annex #29),
    which is not equal to "\n". An LF never joins any other cluster (rules GB4
    and GB5). On Unicode scalars the filter therefore drops every LF except one
    that directly follows a CR. */
module NewlineFilter {
  import opened RecordDecoding

  /** The filter over `t`, where `afterCr` says whether the scalar before `t`
      was a CR (so that an LF at the head of `t` closes a CR LF Character). */
  function StripFrom(t: string, afterCr: bool): (r: string)
    ensures |r| <= |t|
    ensures |r| > 0 && r[0] == '\n' ==> afterCr
    ensures forall k :: 0 < k < |r| && r[k] == '\n' ==> r[k - 1] == '\r'
    ensures forall c :: c != '\n' ==> multiset(r)[c] == multiset(t)[c]
    decreases |t|
  {
    if t == [] then []
    else
      var rest := StripFrom(t[1..], t[0] == '\r');
      assert t == [t[0]] + t[1..];
      assert multiset(t) == multiset{t[0]} + multiset(t[1..]);
      if t[0] != '\n' || afterCr then
        assert multiset([t[0]] + rest) == multiset{t[0]} + multiset(rest);
        [t[0]] + rest
      else rest
  }

  /** `text.filter { $0 != "\n" }`: every LF goes, except the LF of a CR LF
      pair; every other scalar stays, in order. */
  function RemoveNewlines(t: string): (r: string)
    ensures |r| <= |t|
    ensures forall k :: 0 <= k < |r| && r[k] == '\n' ==> k > 0 && r[k - 1] == '\r'
    ensures forall c :: c != '\n' ==> multiset(r)[c] == multiset(t)[c]
  {
    StripFrom(t, false)
  }

  /** The filter works piece by piece, left to right: filtering `a + b` is
      filtering `a`, then filtering `b` knowing whether `a` ended in a CR. */
  lemma {:induction false} StripAppend(a: string, b: string, afterCr: bool)
    ensures StripFrom(a + b, afterCr) ==
            StripFrom(a, afterCr) + StripFrom(b, if a == [] then afterCr else a[|a| - 1] == '\r')
  {
    if a == [] {
      assert a + b == b;
    } else {
      assert (a + b)[1..] == a[1..] + b;
      StripAppend(a[1..], b, a[0] == '\r');
    }
  }

  /** A text whose every LF already closes a CR LF pair passes unchanged. */
  lemma {:induction false} StripFixedPoint(t: string, afterCr: bool)
    requires |t| > 0 && t[0] == '\n' ==> afterCr
    requires forall k :: 0 < k < |t| && t[k] == '\n' ==> t[k - 1] == '\r'
    ensures StripFrom(t, afterCr) == t
  {
    if t != [] {
      StripFixedPoint(t[1..], t[0] == '\r');
    }
  }

  /** A text without LF passes unchanged. */
  lemma NoNewlineUnchanged(t: string, afterCr: bool)
    requires '\n' !in t
    ensures StripFrom(t, afterCr) == t
  {
    StripFixedPoint(t, afterCr);
  }

  /** The scalars of `t` other than LF, in order. */
  function NonNewlines(t: string): string {
    if t == [] then [] else (if t[0] == '\n' then [] else [t[0]]) + NonNewlines(t[1..])
  }

  /** The filter keeps every scalar other than LF, in order: only LFs go. */
  lemma {:induction false} StripKeepsOrder(t: string, afterCr: bool)
    ensures NonNewlines(StripFrom(t, afterCr)) == NonNewlines(t)
  {
    if t != [] {
      StripKeepsOrder(t[1..], t[0] == '\r');
      var rest := StripFrom(t[1..], t[0] == '\r');
      if t[0] != '\n' || afterCr {
        assert ([t[0]] + rest)[1..] == rest;
      }
    }
  }

  /** `RemoveNewlines` keeps all characters other than LF, in their order. */
  lemma RemoveNewlinesKeepsOrder(t: string)
    ensures NonNewlines(RemoveNewlines(t)) == NonNewlines(t)
  {
    StripKeepsOrder(t, false);
  }

  /** Filtering twice is filtering once. */
  lemma RemoveNewlinesIdempotent(t: string)
    ensures RemoveNewlines(RemoveNewlines(t)) == RemoveNewlines(t)
  {
    StripFixedPoint(RemoveNewlines(t), false);
  }

  /** The filter leaves nothing exactly when the text is LFs only. */
  lemma {:induction false} NothingLeft(t: string)
    ensures RemoveNewlines(t) == [] <==> forall i :: 0 <= i < |t| ==> t[i] == '\n'
  {
    if t != [] {
      NothingLeft(t[1..]);
      if t[0] == '\n' {
        assert forall i :: 1 <= i < |t| ==> t[i] == t[1..][i - 1];
      }
    }
  }

  /** The example of the read callback: a blank line between two letters goes. */
  lemma BlankLineRemoved()
    ensures RemoveNewlines("A\n\nB") == "AB"
  {
    assert "A\n\nB"[1..] == "\n\nB";
    assert "\n\nB"[1..] == "\nB";
    assert "\nB"[1..] == "B";
  }

  /** A CR LF pair is one Character, which is not "\n", so it stays. */
  lemma CrLfKept()
    ensures RemoveNewlines("a\r\nb") == "a\r\nb"
  {
    StripFixedPoint("a\r\nb", false);
  }

  /** The filtered parts, one after the other. */
  function StrippedConcat(parts: seq<string>): string {
    if parts == [] then "" else RemoveNewlines(parts[0]) + StrippedConcat(parts[1..])
  }

  /** No part ends in a CR, so no separator LF is taken into a CR LF pair. */
  predicate NoTrailingCr(parts: seq<string>) {
    forall i :: 0 <= i < |parts| ==> parts[i] == [] || parts[i][|parts[i]| - 1] != '\r'
  }

  /** Filtering the joined survivors removes the blank-line separators
      entirely: what remains is each part filtered, concatenated in order. */
  lemma {:induction false} FilterJoined(parts: seq<string>)
    requires NoTrailingCr(parts)
    ensures RemoveNewlines(Join(parts, Separator)) == StrippedConcat(parts)
  {
    if |parts| == 1 {
      assert parts[1..] == [];
    } else if |parts| > 1 {
      var p, rest := parts[0], Join(parts[1..], Separator);
      assert NoTrailingCr(parts[1..]) by {
        forall i | 0 <= i < |parts[1..]|
          ensures parts[1..][i] == [] || parts[1..][i][|parts[1..][i]| - 1] != '\r'
        {
          assert parts[1..][i] == parts[i + 1];
        }
      }
      FilterJoined(parts[1..]);
      assert Join(parts, Separator) == p + (Separator + rest);
      StripAppend(p, Separator + rest, false);
      StripAppend(Separator, rest, false);
      assert StripFrom(Separator, false) == "";
    }
  }
}
