/**
 The highlight of the ledger's search (`chip-ledger-view.ts`): a match found in
 folded text, mapped back to whole characters of the text the reader sees.
 */
module Highlight {
  import opened Text

  /** A displayed character: its code units, never none. */
  type Units<U> = seq<U>

  function Flatten<U>(chars: seq<Units<U>>): seq<U> {
    if chars == [] then [] else Flatten(chars[..|chars| - 1]) + chars[|chars| - 1]
  }

  /** The folded text: the folds of the characters, in order. */
  function Folded<U>(chars: seq<Units<U>>, fold: Units<U> -> seq<U>): seq<U> {
    if chars == [] then [] else Folded(chars[..|chars| - 1], fold) + fold(chars[|chars| - 1])
  }

  predicate OccursAt<U(==)>(text: seq<U>, needle: seq<U>, at: nat) {
    at + |needle| <= |text| && text[at..at + |needle|] == needle
  }

  /** `indexOf`: the first occurrence. */
  predicate FirstAt<U(==)>(text: seq<U>, needle: seq<U>, at: nat) {
    OccursAt(text, needle, at) && forall k: nat | k < at :: !OccursAt(text, needle, k)
  }

  method IndexOf<U(==)>(text: seq<U>, needle: seq<U>) returns (found: Option<nat>)
    ensures found.Some? ==> FirstAt(text, needle, found.value)
    ensures found.None? ==> forall k: nat :: !OccursAt(text, needle, k)
  {
    var at := 0;
    while at + |needle| <= |text|
      invariant forall k: nat | k < at :: !OccursAt(text, needle, k)
    {
      if text[at..at + |needle|] == needle {
        return Some(at);
      }
      at := at + 1;
    }
    found := None;
  }

  datatype Segment<U> = Segment(text: seq<U>, hit: bool)

  /** The characters `first` to `end` are the smallest run whose folds cover the units `at` to `stop`. */
  predicate SmallestRun<U>(chars: seq<Units<U>>, fold: Units<U> -> seq<U>, at: nat, stop: nat, first: nat, end: nat) {
    && first < end <= |chars|
    && |Folded(chars[..first], fold)| <= at < |Folded(chars[..first + 1], fold)|
    && |Folded(chars[..end - 1], fold)| < stop <= |Folded(chars[..end], fold)|
  }

  function Kept<U(==)>(segments: seq<Segment<U>>): seq<Segment<U>> {
    if segments == [] then []
    else (if segments[0].text != [] then [segments[0]] else []) + Kept(segments[1..])
  }

  /** The text cut around one run of characters, empty pieces dropped. */
  function Cut<U(==)>(chars: seq<Units<U>>, first: nat, end: nat): seq<Segment<U>>
    requires first <= end <= |chars|
  {
    Kept([Segment(Flatten(chars[..first]), false),
          Segment(Flatten(chars[first..end]), true),
          Segment(Flatten(chars[end..]), false)])
  }

  /** The span of characters each folded unit came from: one past the last is its character's index. */
  predicate SpansOf<U>(chars: seq<Units<U>>, fold: Units<U> -> seq<U>, spans: seq<nat>) {
    && |spans| == |Folded(chars, fold)|
    && forall k :: 0 <= k < |spans| ==>
         && spans[k] < |chars|
         && |Folded(chars[..spans[k]], fold)| <= k < |Folded(chars[..spans[k] + 1], fold)|
  }

  /**
   The cut: nothing is marked when the needle is empty or the folded text lacks it;
   otherwise exactly the smallest run of whole characters whose fold covers its
   first occurrence.
   */
  method Highlighted<U(==)>(chars: seq<Units<U>>, needle: seq<U>, fold: Units<U> -> seq<U>)
    returns (segments: seq<Segment<U>>)
    ensures needle == [] || (forall k: nat :: !OccursAt(Folded(chars, fold), needle, k)) ==>
              segments == [Segment(Flatten(chars), false)]
    ensures forall at: nat | needle != [] && FirstAt(Folded(chars, fold), needle, at) ::
              exists first, end ::
                SmallestRun(chars, fold, at, at + |needle|, first, end) && segments == Cut(chars, first, end)
  {
    if needle == [] {
      return [Segment(Flatten(chars), false)];
    }
    var folded, spans := FoldSpans(chars, fold);
    var found := IndexOf(folded, needle);
    if found.None? {
      return [Segment(Flatten(chars), false)];
    }
    var at := found.value;
    var first, last := spans[at], spans[at + |needle| - 1];
    SpanOrder(chars, fold, at, at + |needle| - 1, first, last);
    segments := Cut(chars, first, last + 1);
    assert SmallestRun(chars, fold, at, at + |needle|, first, last + 1);
    forall k: nat | FirstAt(folded, needle, k) ensures k == at {
      assert !(k < at) && !(at < k);
    }
  }

  /** The folded text, grown character by character, with where each of its units came from. */
  method FoldSpans<U>(chars: seq<Units<U>>, fold: Units<U> -> seq<U>) returns (folded: seq<U>, spans: seq<nat>)
    ensures folded == Folded(chars, fold) && SpansOf(chars, fold, spans)
  {
    folded, spans := [], [];
    for i := 0 to |chars|
      invariant folded == Folded(chars[..i], fold) && SpansOf(chars[..i], fold, spans)
    {
      var piece := fold(chars[i]);
      ghost var before := |spans|;
      assert chars[..i + 1][..i] == chars[..i];
      var more: seq<nat> := seq(|piece|, _ => i);
      SpansGrow(chars, fold, i, spans, spans + more);
      spans := spans + more;
      folded := folded + piece;
    }
    assert chars[..|chars|] == chars;
  }

  lemma SpansGrow<U>(chars: seq<Units<U>>, fold: Units<U> -> seq<U>, i: nat, spans: seq<nat>, grown: seq<nat>)
    requires i < |chars| && SpansOf(chars[..i], fold, spans)
    requires |grown| == |spans| + |fold(chars[i])| && grown[..|spans|] == spans
    requires forall k :: |spans| <= k < |grown| ==> grown[k] == i
    ensures SpansOf(chars[..i + 1], fold, grown)
  {
    var now := chars[..i + 1];
    assert now[..i] == chars[..i] && now[..i + 1] == now;
    forall k | 0 <= k < |grown|
      ensures grown[k] < |now|
      ensures |Folded(now[..grown[k]], fold)| <= k < |Folded(now[..grown[k] + 1], fold)|
    {
      if k < |spans| {
        assert grown[k] == spans[k];
        assert now[..spans[k]] == chars[..i][..spans[k]] && now[..spans[k] + 1] == chars[..i][..spans[k] + 1];
      }
    }
  }

  lemma {:induction false} FoldedGrows<U>(chars: seq<Units<U>>, fold: Units<U> -> seq<U>, a: nat, b: nat)
    requires a <= b <= |chars|
    ensures |Folded(chars[..a], fold)| <= |Folded(chars[..b], fold)|
    decreases b
  {
    if a < b {
      assert chars[..b][..b - 1] == chars[..b - 1];
      FoldedGrows(chars, fold, a, b - 1);
    }
  }

  lemma SpanOrder<U>(chars: seq<Units<U>>, fold: Units<U> -> seq<U>, at: nat, last: nat, first: nat, end: nat)
    requires at <= last && first < |chars| && end < |chars|
    requires |Folded(chars[..first], fold)| <= at < |Folded(chars[..first + 1], fold)|
    requires |Folded(chars[..end], fold)| <= last < |Folded(chars[..end + 1], fold)|
    ensures first <= end
  {
    if end < first {
      FoldedGrows(chars, fold, end + 1, first);
    }
  }

  function Texts<U>(segments: seq<Segment<U>>): seq<U> {
    if segments == [] then [] else segments[0].text + Texts(segments[1..])
  }

  function Hits<U>(segments: seq<Segment<U>>): nat {
    if segments == [] then 0 else (if segments[0].hit then 1 else 0) + Hits(segments[1..])
  }

  lemma {:induction false} FlattenSplit<U>(a: seq<Units<U>>, b: seq<Units<U>>)
    ensures Flatten(a + b) == Flatten(a) + Flatten(b)
  {
    if b == [] {
      assert a + b == a;
    } else {
      assert (a + b)[..|a + b| - 1] == a + b[..|b| - 1];
      FlattenSplit(a, b[..|b| - 1]);
    }
  }

  lemma {:induction false} KeptSame<U>(segments: seq<Segment<U>>)
    ensures Texts(Kept(segments)) == Texts(segments) && Hits(Kept(segments)) <= Hits(segments)
    ensures forall s | s in Kept(segments) :: s.text != []
  {
    if segments != [] {
      var rest := Kept(segments[1..]);
      KeptSame(segments[1..]);
      if segments[0].text != [] {
        assert ([segments[0]] + rest)[1..] == rest;
        assert Kept(segments) == [segments[0]] + rest;
      } else {
        assert Kept(segments) == rest;
      }
    }
  }

  lemma ThreeSegments<U>(a: Segment<U>, b: Segment<U>, c: Segment<U>)
    ensures Texts([a, b, c]) == a.text + b.text + c.text
    ensures Hits([a, b, c]) == (if a.hit then 1 else 0) + (if b.hit then 1 else 0) + (if c.hit then 1 else 0)
  {
    var s := [a, b, c];
    assert s[1..] == [b, c] && [b, c][1..] == [c] && [c][1..] == [];
    assert Hits([c]) == if c.hit then 1 else 0;
    assert Hits([b, c]) == (if b.hit then 1 else 0) + Hits([c]);
    assert Texts([c]) == c.text;
    assert Texts([b, c]) == b.text + c.text;
    assert a.text + (b.text + c.text) == a.text + b.text + c.text;
  }

  /** The pieces spell the whole text, at most one of them is marked, and none is empty. */
  lemma CutSpellsText<U>(chars: seq<Units<U>>, first: nat, end: nat)
    requires first <= end <= |chars|
    ensures Texts(Cut(chars, first, end)) == Flatten(chars)
    ensures Hits(Cut(chars, first, end)) <= 1
    ensures forall s | s in Cut(chars, first, end) :: s.text != []
  {
    hide Flatten, Kept, Texts, Hits;
    var sa := Segment(Flatten(chars[..first]), false);
    var sb := Segment(Flatten(chars[first..end]), true);
    var sc := Segment(Flatten(chars[end..]), false);
    KeptSame([sa, sb, sc]);
    ThreeSegments(sa, sb, sc);
    FlattenParts(chars, first, end);
  }

  lemma FlattenParts<U>(chars: seq<Units<U>>, first: nat, end: nat)
    requires first <= end <= |chars|
    ensures Flatten(chars) == Flatten(chars[..first]) + Flatten(chars[first..end]) + Flatten(chars[end..])
  {
    hide Flatten;
    FlattenAt(chars, end);
    var head := chars[..end];
    FlattenAt(head, first);
    assert head[..first] == chars[..first];
    assert head[first..] == chars[first..end];
  }

  lemma FlattenAt<U>(chars: seq<Units<U>>, k: nat)
    requires k <= |chars|
    ensures Flatten(chars) == Flatten(chars[..k]) + Flatten(chars[k..])
  {
    hide Flatten;
    FlattenSplit(chars[..k], chars[k..]);
    assert chars[..k] + chars[k..] == chars;
  }

  /** A run of visible characters is never dropped: the mark is there. */
  lemma MarkKept<U>(chars: seq<Units<U>>, first: nat, end: nat)
    requires first < end <= |chars| && forall i :: 0 <= i < |chars| ==> chars[i] != []
    ensures Segment(Flatten(chars[first..end]), true) in Cut(chars, first, end)
  {
    var b := chars[first..end];
    assert b[|b| - 1] == chars[end - 1];
    var all := [Segment(Flatten(chars[..first]), false), Segment(Flatten(b), true), Segment(Flatten(chars[end..]), false)];
    assert Flatten(b) != [];
    assert all[1..][0] == all[1];
    assert all[1] in Kept(all[1..]);
  }
}
