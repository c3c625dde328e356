/** Masking of secret values in a rendered preview, by replacing one after the other. */
module Masking {
  const BULLET := 8226 as char
  const SHORTEST := 4

  function Mask(): (m: string)
    ensures |m| == 8 && forall i :: 0 <= i < 8 ==> m[i] == BULLET
  {
    seq(8, _ => BULLET)
  }

  predicate OccursAt(text: string, v: string, p: nat) {
    p + |v| <= |text| && text[p..p + |v|] == v
  }

  predicate Occurs(text: string, v: string) {
    exists p :: 0 <= p <= |text| && OccursAt(text, v, p)
  }

  /** Eight bullets from position k on. */
  predicate MaskAt(v: string, k: nat) {
    k + 8 <= |v| && forall i :: k <= i < k + 8 ==> v[i] == BULLET
  }

  predicate HoldsMask(v: string) {
    exists k :: 0 <= k <= |v| && MaskAt(v, k)
  }

  /** The secrets that a replacement can never bring back: they neither start nor end with the mask
      character and do not contain the whole mask. */
  predicate Clean(v: string) {
    v != [] && v[0] != BULLET && v[|v| - 1] != BULLET && !HoldsMask(v)
  }

  /** Replacement of all occurrences, from the left, without overlaps. */
  function Replace(text: string, v: string): string
    requires v != []
    decreases |text|
  {
    if text == [] then []
    else if v <= text then Mask() + Replace(text[|v|..], v)
    else [text[0]] + Replace(text[1..], v)
  }

  // ----- a replaced text does not hold a clean secret -----

  /** Whatever is at the start of a replaced text was there before, or has met a mask. */
  lemma {:induction false} PrefixOfReplaced(text: string, u: string, w: string)
    requires u != [] && w != [] && w <= Replace(text, u)
    ensures w <= text || HoldsMask(w) || w[|w| - 1] == BULLET
    decreases |text|
  {
    if u <= text {
      if |w| >= 8 {
        assert forall i :: 0 <= i < 8 ==> w[i] == Replace(text, u)[i] == Mask()[i];
        assert MaskAt(w, 0);
      } else {
        assert w[|w| - 1] == Replace(text, u)[|w| - 1] == Mask()[|w| - 1];
      }
    } else if |w| > 1 {
      var tail := w[1..];
      assert tail <= Replace(text[1..], u);
      PrefixOfReplaced(text[1..], u, tail);
      if HoldsMask(tail) {
        var k :| 0 <= k <= |tail| && MaskAt(tail, k);
        MaskMoves(w, k);
      }
    }
  }

  lemma MaskMoves(w: string, k: nat)
    requires w != [] && MaskAt(w[1..], k)
    ensures MaskAt(w, k + 1) && HoldsMask(w)
  {
    assert forall i :: k <= i < k + 8 ==> w[1..][i] == w[i + 1];
    forall i | k + 1 <= i < k + 9 ensures w[i] == BULLET {
      assert w[1..][i - 1] == w[i];
    }
  }

  lemma OccursInTail(text: string, v: string, k: nat)
    requires k <= |text| && Occurs(text[k..], v)
    ensures Occurs(text, v)
  {
    var p :| 0 <= p <= |text[k..]| && OccursAt(text[k..], v, p);
    assert text[k + p..k + p + |v|] == text[k..][p..p + |v|];
    assert OccursAt(text, v, k + p);
  }

  lemma OccursBehind(head: string, tail: string, v: string, p: nat)
    requires OccursAt(head + tail, v, p) && p >= |head|
    ensures Occurs(tail, v)
  {
    assert (head + tail)[p..p + |v|] == tail[p - |head|..p - |head| + |v|];
    assert OccursAt(tail, v, p - |head|);
  }

  /** Replacing u never creates an occurrence of a clean v: neither of v itself while it is being
      replaced, nor of one that was replaced earlier. */
  lemma {:induction false} NeverRecreated(text: string, u: string, v: string)
    requires u != [] && Clean(v) && (u == v || !Occurs(text, v))
    ensures !Occurs(Replace(text, u), v)
    decreases |text|
  {
    var now := Replace(text, u);
    if text != [] {
      var taken := if u <= text then |u| else 1;
      var head := if u <= text then Mask() else [text[0]];
      if u != v && Occurs(text[taken..], v) {
        OccursInTail(text, v, taken);
      }
      NeverRecreated(text[taken..], u, v);
      assert now == head + Replace(text[taken..], u);
      if Occurs(now, v) {
        var p :| 0 <= p <= |now| && OccursAt(now, v, p);
        if p >= |head| {
          OccursBehind(head, Replace(text[taken..], u), v, p);
        } else {
          StartsInHead(text, u, v, p);
        }
      }
    }
  }

  /** A clean secret cannot start inside what one step of the replacement writes. */
  lemma StartsInHead(text: string, u: string, v: string, p: nat)
    requires u != [] && text != [] && Clean(v) && (u == v || !Occurs(text, v))
    requires p < if u <= text then 8 else 1
    ensures !OccursAt(Replace(text, u), v, p)
  {
    var now := Replace(text, u);
    if u <= text {
      assert now[p] == Mask()[p];
      StartsWithItsFirst(now, v, p);
    } else if v <= now {
      PrefixOfReplaced(text, u, v);
      assert v <= text ==> OccursAt(text, v, 0);
    }
  }

  lemma StartsWithItsFirst(text: string, v: string, p: nat)
    requires v != [] && p < |text|
    ensures OccursAt(text, v, p) ==> text[p] == v[0]
  {
    if OccursAt(text, v, p) {
      assert text[p..p + |v|][0] == text[p];
    }
  }

  // ----- all secrets, the longest first -----

  function PlaceByLength(sorted: seq<string>, v: string): seq<string> {
    if sorted == [] || |sorted[|sorted| - 1]| >= |v| then sorted + [v]
    else PlaceByLength(sorted[..|sorted| - 1], v) + [sorted[|sorted| - 1]]
  }

  function LongestFirst(values: seq<string>): seq<string> {
    if values == [] then [] else PlaceByLength(LongestFirst(values[..|values| - 1]), values[|values| - 1])
  }

  lemma {:induction false} PlaceByLengthMembers(sorted: seq<string>, v: string)
    ensures forall x :: x in PlaceByLength(sorted, v) <==> x in sorted || x == v
  {
    if sorted != [] {
      assert sorted == sorted[..|sorted| - 1] + [sorted[|sorted| - 1]];
      PlaceByLengthMembers(sorted[..|sorted| - 1], v);
    }
  }

  lemma {:induction false} LongestFirstMembers(values: seq<string>)
    ensures forall x :: x in LongestFirst(values) <==> x in values
  {
    if values != [] {
      var front, last := values[..|values| - 1], values[|values| - 1];
      assert values == front + [last];
      LongestFirstMembers(front);
      PlaceByLengthMembers(LongestFirst(front), last);
    }
  }

  predicate LengthsFall(values: seq<string>) {
    forall i, j :: 0 <= i < j < |values| ==> |values[i]| >= |values[j]|
  }

  lemma {:induction false} PlaceByLengthFalls(sorted: seq<string>, v: string)
    requires LengthsFall(sorted)
    ensures LengthsFall(PlaceByLength(sorted, v))
    ensures forall x :: x in PlaceByLength(sorted, v) ==> x in sorted || x == v
  {
    if sorted != [] && |sorted[|sorted| - 1]| < |v| {
      var front, last := sorted[..|sorted| - 1], sorted[|sorted| - 1];
      PlaceByLengthFalls(front, v);
      forall x | x in front ensures |x| >= |last| {
        var i :| 0 <= i < |front| && front[i] == x;
        assert sorted[i] == x;
      }
    }
  }

  lemma {:induction false} LongestComeFirst(values: seq<string>)
    ensures LengthsFall(LongestFirst(values))
  {
    if values != [] {
      LongestComeFirst(values[..|values| - 1]);
      PlaceByLengthFalls(LongestFirst(values[..|values| - 1]), values[|values| - 1]);
    }
  }

  /** The text after the first k values. Values shorter than four characters are left alone. */
  function Masked(text: string, values: seq<string>, k: nat): string
    requires k <= |values|
  {
    if k == 0 then text
    else if |values[k - 1]| >= SHORTEST then Replace(Masked(text, values, k - 1), values[k - 1])
    else Masked(text, values, k - 1)
  }

  lemma {:induction false} NoneLeft(text: string, values: seq<string>, k: nat, i: nat)
    requires i < k <= |values| && |values[i]| >= SHORTEST && Clean(values[i])
    ensures !Occurs(Masked(text, values, k), values[i])
  {
    hide Occurs, Clean, Replace;
    if |values[k - 1]| >= SHORTEST {
      if i < k - 1 {
        NoneLeft(text, values, k - 1, i);
      }
      NeverRecreated(Masked(text, values, k - 1), values[k - 1], values[i]);
    } else {
      NoneLeft(text, values, k - 1, i);
    }
  }

  function MaskedByAll(text: string, values: seq<string>): string {
    var sorted := LongestFirst(values);
    Masked(text, sorted, |sorted|)
  }

  method MaskSecrets(text: string, values: seq<string>) returns (masked: string)
    ensures masked == MaskedByAll(text, values)
  {
    masked := text;
    var sorted := LongestFirst(values);
    for k := 0 to |sorted|
      invariant masked == Masked(text, sorted, k)
    {
      if |sorted[k]| >= SHORTEST {
        masked := Replace(masked, sorted[k]);
      }
    }
  }

  /** Every clean secret of at least four characters is gone from the result, whatever the other
      secrets are and however they overlap. */
  lemma NoSecretShows(text: string, values: seq<string>, v: string)
    requires v in values && |v| >= SHORTEST && Clean(v)
    ensures !Occurs(MaskedByAll(text, values), v)
  {
    LongestFirstMembers(values);
    var sorted := LongestFirst(values);
    var i :| 0 <= i < |sorted| && sorted[i] == v;
    NoneLeft(text, sorted, |sorted|, i);
  }

  lemma {:induction false} NothingToReplace(text: string, v: string)
    requires v != [] && !Occurs(text, v)
    ensures Replace(text, v) == text
  {
    if text != [] {
      if v <= text {
        assert OccursAt(text, v, 0);
      }
      if Occurs(text[1..], v) {
        OccursInTail(text, v, 1);
      }
      NothingToReplace(text[1..], v);
      assert text == [text[0]] + text[1..];
    }
  }

  lemma {:induction false} NothingToMask(text: string, values: seq<string>, k: nat)
    requires k <= |values| && forall i :: 0 <= i < k && |values[i]| >= SHORTEST ==> !Occurs(text, values[i])
    ensures Masked(text, values, k) == text
  {
    hide Occurs;
    if k > 0 {
      NothingToMask(text, values, k - 1);
      if |values[k - 1]| >= SHORTEST {
        NothingToReplace(text, values[k - 1]);
      }
    }
  }

  /** A text that holds none of the values of four characters or more is left exactly as it is, whatever
      shorter values it holds. */
  lemma OthersAreLeftAlone(text: string, values: seq<string>)
    requires forall v <- values :: |v| >= 4 ==> !Occurs(text, v)
    ensures MaskedByAll(text, values) == text
  {
    var sorted := LongestFirst(values);
    LongestFirstMembers(values);
    hide Occurs;
    assert forall i :: 0 <= i < |sorted| ==> sorted[i] in values;
    NothingToMask(text, sorted, |sorted|);
  }

  /** The first occurrence of a single secret becomes eight bullets, with the text in front as it was. */
  lemma OneSecretIsMasked(a: string, v: string, b: string)
    requires |v| >= 4 && NoneBefore(a + v + b, v, |a|)
    ensures MaskedByAll(a + v + b, [v]) == a + Mask() + MaskedByAll(b, [v])
  {
    FirstIsReplaced(a + v + b, a, v, b);
    assert [v][..0] == [] && LongestFirst([v]) == [v];
    assert Masked(a + v + b, [v], 0) == a + v + b && Masked(b, [v], 0) == b;
  }

  predicate AllClean(values: seq<string>) {
    forall v :: v in values && |v| >= SHORTEST ==> Clean(v)
  }

  /** With clean secrets, masking a masked preview again changes nothing. */
  lemma MaskingIsIdempotent(text: string, values: seq<string>)
    requires AllClean(values)
    ensures MaskedByAll(MaskedByAll(text, values), values) == MaskedByAll(text, values)
  {
    var sorted := LongestFirst(values);
    LongestFirstMembers(values);
    forall i | 0 <= i < |sorted| && |sorted[i]| >= SHORTEST ensures !Occurs(MaskedByAll(text, values), sorted[i]) {
      assert sorted[i] in values;
      NoSecretShows(text, values, sorted[i]);
    }
    NothingToMask(MaskedByAll(text, values), sorted, |sorted|);
  }

  // ----- the condition is exact -----

  lemma {:induction false} ShorterTextStays(text: string, v: string)
    requires v != [] && |text| < |v|
    ensures Replace(text, v) == text
  {
    if text != [] {
      ShorterTextStays(text[1..], v);
      assert text == [text[0]] + text[1..];
    }
  }

  lemma OccursAtTail(text: string, v: string, i: nat)
    requires text != []
    ensures OccursAt(text[1..], v, i) <==> OccursAt(text, v, i + 1)
  {
    if i + 1 + |v| <= |text| {
      assert text[1..][i..i + |v|] == text[i + 1..i + 1 + |v|];
    }
  }

  lemma CharAt(text: string, v: string, p: nat, x: nat)
    requires OccursAt(text, v, p) && x < |v|
    ensures p + x < |text| && text[p + x] == v[x]
  {
    assert text[p..p + |v|][x] == text[p + x];
  }

  lemma OccursThere(text: string, head: string, v: string, tail: string)
    requires text == head + v + tail
    ensures OccursAt(text, v, |head|) && Occurs(text, v)
  {
    assert text[|head|..|head| + |v|] == v;
    assert OccursAt(text, v, |head|);
  }

  predicate NoneBefore(text: string, v: string, k: nat) {
    forall i :: 0 <= i < k ==> !OccursAt(text, v, i)
  }

  lemma NoneBeforeInTail(text: string, v: string, k: nat)
    requires text != [] && NoneBefore(text, v, k + 1)
    ensures NoneBefore(text[1..], v, k) && !(v <= text)
  {
    assert !OccursAt(text, v, 0);
    hide OccursAt;
    forall i | 0 <= i < k ensures !OccursAt(text[1..], v, i) {
      OccursAtTail(text, v, i);
      assert !OccursAt(text, v, i + 1);
    }
  }

  /** The first occurrence is the first thing replaced. */
  lemma {:induction false} FirstIsReplaced(text: string, a: string, v: string, b: string)
    requires v != [] && text == a + v + b && NoneBefore(text, v, |a|)
    ensures Replace(text, v) == a + Mask() + Replace(b, v)
    decreases |a|
  {
    if a == [] {
      assert text[|v|..] == b;
      assert a + Mask() == Mask();
    } else {
      var k := |a| - 1;
      NoneBeforeInTail(text, v, k);
      assert text[1..] == a[1..] + v + b;
      hide NoneBefore;
      FirstIsReplaced(text[1..], a[1..], v, b);
      Prepended(a, Mask(), Replace(b, v));
    }
  }

  lemma Prepended(a: string, m: string, rest: string)
    requires a != []
    ensures [a[0]] + (a[1..] + m + rest) == a + m + rest
  {
  }

  /** A secret that starts with a bullet comes back after a mask: in v followed by v without its
      first character. */
  lemma StartingBulletLeaks(v: string)
    requires v != [] && v[0] == BULLET
    ensures Occurs(Replace([] + v + v[1..], v), v)
  {
    hide Occurs, OccursAt;
    FirstIsReplaced([] + v + v[1..], [], v, v[1..]);
    ShorterTextStays(v[1..], v);
    SharedBullet(v);
    OccursThere([] + Mask() + v[1..], Mask()[1..], v, []);
  }

  lemma SharedBullet(v: string)
    requires v != [] && v[0] == BULLET
    ensures [] + Mask() + v[1..] == Mask()[1..] + v + []
  {
    assert Mask() == Mask()[1..] + [v[0]];
    assert v == [v[0]] + v[1..];
  }

  lemma NoCopyBeforeTheSecond(v: string)
    requires v != [] && v[0] != BULLET && v[|v| - 1] == BULLET
    ensures NoneBefore(v[..|v| - 1] + v + [], v, |v| - 1)
  {
    var n := |v| - 1;
    var text := v[..n] + v + [];
    assert forall i :: 0 <= i < n ==> text[i] == v[i] && text[i + n] == v[i];
    hide OccursAt;
    forall i | 0 <= i < n ensures !OccursAt(text, v, i) {
      if OccursAt(text, v, i) {
        CharAt(text, v, i, 0);
        CharAt(text, v, i, n);
      }
    }
  }

  /** One that ends with a bullet comes back in front of a mask. */
  lemma EndingBulletLeaks(v: string)
    requires v != [] && v[0] != BULLET && v[|v| - 1] == BULLET
    ensures Occurs(Replace(v[..|v| - 1] + v + [], v), v)
  {
    var n := |v| - 1;
    NoCopyBeforeTheSecond(v);
    hide Occurs, OccursAt, NoneBefore;
    FirstIsReplaced(v[..n] + v + [], v[..n], v, []);
    ShorterTextStays([], v);
    BulletTaken(v);
    OccursThere(v[..n] + Mask() + [], [], v, Mask()[1..]);
  }

  lemma BulletTaken(v: string)
    requires v != [] && v[|v| - 1] == BULLET
    ensures v[..|v| - 1] + Mask() + [] == [] + v + Mask()[1..]
  {
    assert v == v[..|v| - 1] + [BULLET];
    assert Mask() == [BULLET] + Mask()[1..];
  }

  /** One that contains the mask comes back whole when it stands in its own middle. */
  lemma InnerMaskLeaks(v: string, k: nat)
    requires MaskAt(v, k) && forall i :: 0 <= i < k ==> !MaskAt(v, i)
    ensures Occurs(Replace(v[..k] + v + v[k + 8..], v), v)
  {
    var a, b := v[..k], v[k + 8..];
    forall i | 0 <= i < k ensures !OccursAt(a + v + b, v, i) {
      EarlierMask(v, k, i);
    }
    assert a + Mask() + b == v;
    hide Occurs, OccursAt, MaskAt;
    FirstIsReplaced(a + v + b, a, v, b);
    ShorterTextStays(b, v);
    OccursThere(v, [], v, []);
  }

  /** An earlier occurrence would put a mask at an earlier place of v. */
  lemma EarlierMask(v: string, k: nat, i: nat)
    requires MaskAt(v, k) && i < k && !MaskAt(v, i)
    ensures !OccursAt(v[..k] + v + v[k + 8..], v, i)
  {
    var text := v[..k] + v + v[k + 8..];
    var x :| i <= x < i + 8 && v[x] != BULLET;
    assert text[x + k] == v[x];
    hide OccursAt;
    if OccursAt(text, v, i) {
      CharAt(text, v, i, x - i + k);
    }
  }

  ghost predicate AlwaysRemoved(v: string)
    requires v != []
  {
    forall text :: !Occurs(Replace(text, v), v)
  }

  lemma FirstMask(v: string) returns (k: nat)
    requires HoldsMask(v)
    ensures MaskAt(v, k) && forall i :: 0 <= i < k ==> !MaskAt(v, i)
  {
    k :| 0 <= k <= |v| && MaskAt(v, k);
    while exists i :: 0 <= i < k && MaskAt(v, i)
      invariant MaskAt(v, k)
      decreases k
    {
      var i :| 0 <= i < k && MaskAt(v, i);
      k := i;
    }
  }

  /** A secret is removed from every text if and only if it is clean. */
  lemma RemovedExactly(v: string)
    requires v != []
    ensures AlwaysRemoved(v) <==> Clean(v)
  {
    if Clean(v) {
      forall text ensures !Occurs(Replace(text, v), v) {
        NeverRecreated(text, v, v);
      }
    } else if v[0] == BULLET {
      StartingBulletLeaks(v);
    } else if v[|v| - 1] == BULLET {
      EndingBulletLeaks(v);
    } else {
      var k := FirstMask(v);
      InnerMaskLeaks(v, k);
    }
  }
}
