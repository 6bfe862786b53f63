/** Removal of the Markdown code fences a language model wraps around JSON,
    applied to the reply text right before it is parsed, in both
    generate_learning_plan_tool and get_learning_resources_tool. */
module FenceCleaning {

  import opened PyStr

  const Fence: string := "```"
  const JsonFence: string := "```json"

  /** The number of backticks `s` starts with. */
  function LeadingTicks(s: string): nat
    decreases |s|
  {
    if |s| > 0 && s[0] == '`' then 1 + LeadingTicks(s[1..]) else 0
  }

  lemma TicksAfterFence(s: string)
    requires StartsWith(s, Fence)
    ensures LeadingTicks(s) == 3 + LeadingTicks(s[3..])
  {
    assert s[0] == s[1] == s[2] == '`' by { assert s[..3] == Fence; }
    assert s[1..][1..] == s[2..] && s[2..][1..] == s[3..];
    calc {
      LeadingTicks(s);
      1 + LeadingTicks(s[1..]);
      { assert s[1..][0] == '`'; }
      2 + LeadingTicks(s[2..]);
      { assert s[2..][0] == '`'; }
      3 + LeadingTicks(s[3..]);
    }
  }

  /** Removing every fence shrinks the leading run of backticks to its
      length modulo three. */
  lemma {:induction false} RemoveFenceLeadingTicks(s: string)
    ensures LeadingTicks(RemoveAll(s, Fence)) == LeadingTicks(s) % 3
    decreases |s|
  {
    if StartsWith(s, Fence) {
      TicksAfterFence(s);
      RemoveFenceLeadingTicks(s[3..]);
    } else if |s| > 0 {
      var rest := RemoveAll(s[1..], Fence);
      assert RemoveAll(s, Fence) == [s[0]] + rest;
      assert ([s[0]] + rest)[1..] == rest;
      if s[0] == '`' {
        RemoveFenceLeadingTicks(s[1..]);
      }
    }
  }

  /** After `replace("```", "")` no fence is left, because every run of
      backticks has been cut down to at most two. */
  lemma {:induction false} RemoveFenceLeavesNoFence(s: string)
    ensures !Contains(RemoveAll(s, Fence), Fence)
    decreases |s|
  {
    if StartsWith(s, Fence) {
      RemoveFenceLeavesNoFence(s[3..]);
    } else if |s| > 0 {
      var rest := RemoveAll(s[1..], Fence);
      var r := [s[0]] + rest;
      assert RemoveAll(s, Fence) == r;
      assert r[1..] == rest;
      RemoveFenceLeavesNoFence(s[1..]);
      RemoveFenceLeadingTicks(s[1..]);
    }
  }

  /** The cleaning step: strip the reply, and if it opens with a fence
      remove every fence marker and strip again. */
  function CleanFence(text: string): (r: string)
    ensures IsStripped(r)
    ensures StartsWith(Strip(text), Fence) ==> !Contains(r, Fence)
    ensures !StartsWith(Strip(text), Fence) ==> r == Strip(text)
  {
    var t := Strip(text);
    if StartsWith(t, JsonFence) then
      JsonFenceIsFence(t);
      Unfenced(RemoveAll(t, JsonFence))
    else if StartsWith(t, Fence) then
      Unfenced(t)
    else
      t
  }

  /** `replace("```", "").strip()`: the tail of both fence branches. */
  function Unfenced(s: string): (r: string)
    ensures IsStripped(r) && !Contains(r, Fence)
  {
    var u := RemoveAll(s, Fence);
    RemoveFenceLeavesNoFence(s);
    NoFenceAfterStrip(u);
    Strip(u)
  }

  lemma JsonFenceIsFence(t: string)
    requires StartsWith(t, JsonFence)
    ensures StartsWith(t, Fence)
  {
    assert t[..3] == t[..7][..3];
  }

  lemma NoFenceAfterStrip(u: string)
    requires !Contains(u, Fence)
    ensures !Contains(Strip(u), Fence)
  {
    if Contains(Strip(u), Fence) {
      StripContains(u, Fence);
    }
  }

  /** Cleaning an already cleaned reply changes nothing. */
  lemma CleanFenceIdempotent(text: string)
    ensures CleanFence(CleanFence(text)) == CleanFence(text)
  {
    var r := CleanFence(text);
    StripStripped(r);
    if StartsWith(r, Fence) {
      assert Contains(r, Fence);
    }
  }

  /** A reply of the form "```json" + body + "```" with no backtick in the
      body comes out as the stripped body. */
  lemma UnwrapJsonFence(body: string)
    requires '`' !in body
    ensures CleanFence(JsonFence + body + Fence) == Strip(body)
  {
    JsonFenceBranch(body);
    JsonFenceRemoved(body);
    TrailingFenceRemoved(body);
  }

  /** Such a reply takes the "```json" branch. */
  lemma JsonFenceBranch(body: string)
    ensures var t := JsonFence + body + Fence;
      CleanFence(t) == Unfenced(RemoveAll(t, JsonFence))
  {
    var t := JsonFence + body + Fence;
    Enclosed(JsonFence, body, Fence);
    StripStripped(t);
  }

  /** Removing every "```json" from it leaves the body and the closing fence. */
  lemma JsonFenceRemoved(body: string)
    requires '`' !in body
    ensures RemoveAll(JsonFence + body + Fence, JsonFence) == body + Fence
  {
    Enclosed(JsonFence, body, Fence);
    RemoveAllSkips(body, Fence, JsonFence);
    ShorterNotContains(Fence, JsonFence);
  }

  /** Removing every fence from body + "```" leaves the body. */
  lemma TrailingFenceRemoved(body: string)
    requires '`' !in body
    ensures RemoveAll(body + Fence, Fence) == body
  {
    RemoveAllSkips(body, Fence, Fence);
    assert Fence[3..] == [];
    assert RemoveAll(Fence, Fence) == [];
    assert body + [] == body;
  }

  /** A reply of the form "```" + body + "```", with no backtick in the body
      and no "json" tag at its head, also comes out as the stripped body. */
  lemma UnwrapFence(body: string)
    requires '`' !in body && !StartsWith(body, "json")
    ensures CleanFence(Fence + body + Fence) == Strip(body)
  {
    PlainFenceBranch(body);
    FencesRemoved(body);
  }

  /** Such a reply takes the plain-fence branch. */
  lemma PlainFenceBranch(body: string)
    requires '`' !in body && !StartsWith(body, "json")
    ensures CleanFence(Fence + body + Fence) == Unfenced(Fence + body + Fence)
  {
    var t := Fence + body + Fence;
    Enclosed(Fence, body, Fence);
    StripStripped(t);
    assert !StartsWith(t, JsonFence) by {
      if |body| >= 4 {
        assert t[3..7] == body[..4];
      } else {
        assert t[3 + |body|] == '`';
      }
    }
  }

  /** Removing every fence from "```" + body + "```" leaves the body. */
  lemma FencesRemoved(body: string)
    requires '`' !in body
    ensures RemoveAll(Fence + body + Fence, Fence) == body
  {
    Enclosed(Fence, body, Fence);
    TrailingFenceRemoved(body);
  }

  /** Where the parts of `open + body + close` sit. */
  lemma Enclosed(open: string, body: string, close: string)
    ensures var t := open + body + close;
      t[..|open|] == open && t[|open|..] == body + close
  {
    var t := open + body + close;
    assert t == open + (body + close);
  }
}
