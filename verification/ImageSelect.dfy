/** Which embedded figures of a document to keep: large enough, not repeated, and within a cap. */
module ImageSelect {

  datatype Meta = Meta(page: int, width: int, height: int, areaRatio: real, hash: string)

  datatype Limits = Limits(minPixels: int, minAreaRatio: real, repeatFraction: real)

  /** The pages on which a picture occurs. */
  function PagesOf(metas: seq<Meta>, hash: string): set<int> {
    set m | m in metas && m.hash == hash :: m.page
  }

  /** A picture on this many pages is a logo or a watermark. */
  function RepeatThreshold(textPages: nat, l: Limits): int {
    var n := (textPages as real * l.repeatFraction).Floor;
    if textPages == 0 || n < 2 then 2 else n
  }

  predicate Banned(metas: seq<Meta>, textPages: nat, l: Limits, hash: string) {
    |PagesOf(metas, hash)| >= RepeatThreshold(textPages, l)
  }

  /** Large enough and not repeated over the pages. */
  predicate Passes(metas: seq<Meta>, textPages: nat, l: Limits, m: Meta) {
    && m.areaRatio >= l.minAreaRatio
    && m.width >= l.minPixels
    && m.height >= l.minPixels
    && !Banned(metas, textPages, l, m.hash)
  }

  /** A candidate that passes, and the first such one on its page with its content. */
  predicate Qualifies(metas: seq<Meta>, textPages: nat, l: Limits, k: nat)
    requires k < |metas|
  {
    && Passes(metas, textPages, l, metas[k])
    && forall j :: 0 <= j < k && Passes(metas, textPages, l, metas[j]) ==>
      metas[j].page != metas[k].page || metas[j].hash != metas[k].hash
  }

  /** The qualifying indices below n, in order. */
  function Qualifying(metas: seq<Meta>, textPages: nat, l: Limits, n: nat): (ks: seq<nat>)
    requires n <= |metas|
    ensures forall i :: 0 <= i < |ks| ==> ks[i] < n && Qualifies(metas, textPages, l, ks[i])
    ensures forall i, j :: 0 <= i < j < |ks| ==> ks[i] < ks[j]
  {
    if n == 0 then []
    else
      var before := Qualifying(metas, textPages, l, n - 1);
      if Qualifies(metas, textPages, l, n - 1) then before + [n - 1] else before
  }

  /** At most the cap, and one figure even when the cap is below one. */
  function Capped(ks: seq<nat>, maxImages: int): seq<nat> {
    if |ks| <= 1 || |ks| <= maxImages then ks else if maxImages < 1 then ks[..1] else ks[..maxImages]
  }

  method CountPages(metas: seq<Meta>) returns (pages: map<string, set<int>>)
    ensures forall h :: h in pages <==> exists m :: m in metas && m.hash == h
    ensures forall h :: h in pages ==> pages[h] == PagesOf(metas, h)
  {
    pages := map[];
    for k := 0 to |metas|
      invariant forall h :: h in pages <==> exists m :: m in metas[..k] && m.hash == h
      invariant forall h :: h in pages ==> pages[h] == PagesOf(metas[..k], h)
    {
      var m := metas[k];
      assert metas[..k + 1] == metas[..k] + [m];
      assert forall h :: PagesOf(metas[..k + 1], h) == PagesOf(metas[..k], h) + (if h == m.hash then {m.page} else {});
      if m.hash !in pages {
        assert PagesOf(metas[..k], m.hash) == {};
      }
      pages := pages[m.hash := (if m.hash in pages then pages[m.hash] else {}) + {m.page}];
    }
    assert metas[..|metas|] == metas;
  }

  /** The page and content of every passing candidate below k. */
  ghost predicate Seen(metas: seq<Meta>, textPages: nat, l: Limits, k: nat, seen: set<(int, string)>)
    requires k <= |metas|
  {
    forall p, h :: (p, h) in seen <==>
      exists j :: 0 <= j < k && Passes(metas, textPages, l, metas[j]) && metas[j].page == p && metas[j].hash == h
  }

  lemma {:induction false} SeenNext(metas: seq<Meta>, textPages: nat, l: Limits, k: nat, seen: set<(int, string)>)
    requires k < |metas| && Seen(metas, textPages, l, k, seen)
    ensures var key := (metas[k].page, metas[k].hash);
      && Seen(metas, textPages, l, k + 1, if Passes(metas, textPages, l, metas[k]) then seen + {key} else seen)
      && (Qualifies(metas, textPages, l, k) <==> Passes(metas, textPages, l, metas[k]) && key !in seen)
  {
    hide Passes;
    var key := (metas[k].page, metas[k].hash);
    forall p, h | Passes(metas, textPages, l, metas[k])
      ensures (p, h) in seen + {key} <==>
        exists j :: 0 <= j < k + 1 && Passes(metas, textPages, l, metas[j]) && metas[j].page == p && metas[j].hash == h
    {
    }
  }

  lemma QualifyingStep(metas: seq<Meta>, textPages: nat, l: Limits, k: nat)
    requires k < |metas|
    ensures Qualifying(metas, textPages, l, k + 1) ==
      Qualifying(metas, textPages, l, k) + (if Qualifies(metas, textPages, l, k) then [k] else [])
  {
  }

  method SelectEmbeddedImages(metas: seq<Meta>, textPages: nat, l: Limits, maxImages: int) returns (kept: seq<nat>)
    ensures kept == Capped(Qualifying(metas, textPages, l, |metas|), maxImages)
  {
    hide Qualifying, Qualifies, Seen, PagesOf, RepeatThreshold;
    var pages := CountPages(metas);
    var threshold := RepeatThreshold(textPages, l);
    kept := [];
    var seen: set<(int, string)> := {};
    StartsEmpty(metas, textPages, l);
    for k := 0 to |metas|
      invariant kept == Qualifying(metas, textPages, l, k)
      invariant kept == [] || |kept| < maxImages
      invariant Seen(metas, textPages, l, k, seen)
    {
      var m := metas[k];
      assert m in metas;
      SeenNext(metas, textPages, l, k, seen);
      QualifyingStep(metas, textPages, l, k);
      if m.areaRatio < l.minAreaRatio || m.width < l.minPixels || m.height < l.minPixels {
        continue;
      }
      if |pages[m.hash]| >= threshold {
        continue;
      }
      var key := (m.page, m.hash);
      if key in seen {
        assert seen + {key} == seen;
        continue;
      }
      seen := seen + {key};
      kept := kept + [k];
      if |kept| >= maxImages {
        QualifyingGrows(metas, textPages, l, k + 1, |metas|);
        return;
      }
    }
  }

  lemma StartsEmpty(metas: seq<Meta>, textPages: nat, l: Limits)
    ensures Qualifying(metas, textPages, l, 0) == [] && Seen(metas, textPages, l, 0, {})
  {
  }

  lemma {:induction false} QualifyingGrows(metas: seq<Meta>, textPages: nat, l: Limits, i: nat, j: nat)
    requires i <= j <= |metas|
    ensures Qualifying(metas, textPages, l, i) <= Qualifying(metas, textPages, l, j)
    decreases j
  {
    if i < j {
      QualifyingGrows(metas, textPages, l, i, j - 1);
    }
  }

  /** Every qualifying candidate is listed. */
  lemma {:induction false} QualifyingAll(metas: seq<Meta>, textPages: nat, l: Limits, n: nat, k: nat)
    requires k < n <= |metas| && Qualifies(metas, textPages, l, k)
    ensures k in Qualifying(metas, textPages, l, n)
  {
    if k < n - 1 {
      QualifyingAll(metas, textPages, l, n - 1, k);
    }
  }

  function Selected(metas: seq<Meta>, textPages: nat, l: Limits, maxImages: int): seq<nat> {
    Capped(Qualifying(metas, textPages, l, |metas|), maxImages)
  }

  /** Below the cap nothing that qualifies is missing; at the cap, everything missing comes later. */
  lemma {:induction false} FirstQualifying(metas: seq<Meta>, textPages: nat, l: Limits, maxImages: int, k: nat)
    requires k < |metas| && maxImages >= 1
    ensures var kept := Selected(metas, textPages, l, maxImages);
      && |kept| <= maxImages
      && (k in kept ==> Qualifies(metas, textPages, l, k))
      && (Qualifies(metas, textPages, l, k) && k !in kept ==>
            |kept| == maxImages && forall i :: 0 <= i < |kept| ==> kept[i] < k)
  {
    var ks := Qualifying(metas, textPages, l, |metas|);
    if Qualifies(metas, textPages, l, k) {
      QualifyingAll(metas, textPages, l, |metas|, k);
    }
  }

  /** No page keeps the same content twice. */
  lemma {:induction false} NoDuplicates(metas: seq<Meta>, textPages: nat, l: Limits, maxImages: int, i: nat, j: nat)
    requires var kept := Selected(metas, textPages, l, maxImages); i < j < |kept|
    ensures var kept := Selected(metas, textPages, l, maxImages);
      metas[kept[i]].page != metas[kept[j]].page || metas[kept[i]].hash != metas[kept[j]].hash
  {
    var ks := Qualifying(metas, textPages, l, |metas|);
    var kept := Selected(metas, textPages, l, maxImages);
    assert kept[i] == ks[i] && kept[j] == ks[j];
    assert Qualifies(metas, textPages, l, ks[i]);
  }

  /** The positions in a selection at which a picture is kept. */
  ghost function Places(metas: seq<Meta>, kept: seq<nat>, hash: string): set<nat>
    requires forall i :: 0 <= i < |kept| ==> kept[i] < |metas|
  {
    set i | 0 <= i < |kept| && metas[kept[i]].hash == hash
  }

  /** A picture is kept fewer times than the threshold. */
  lemma {:induction false} KeptRarely(metas: seq<Meta>, textPages: nat, l: Limits, maxImages: int, hash: string)
    ensures var kept := Selected(metas, textPages, l, maxImages);
      |Places(metas, kept, hash)| < RepeatThreshold(textPages, l)
  {
    var kept := Selected(metas, textPages, l, maxImages);
    var places := Places(metas, kept, hash);
    hide RepeatThreshold;
    forall i, j | i in places && j in places && metas[kept[i]].page == metas[kept[j]].page ensures i == j {
      if i < j {
        NoDuplicates(metas, textPages, l, maxImages, i, j);
      } else if j < i {
        NoDuplicates(metas, textPages, l, maxImages, j, i);
      }
    }
    Injects(places, PagesOf(metas, hash), i requires i in places => metas[kept[i]].page);
    if i :| i in places {
      assert Qualifies(metas, textPages, l, kept[i]);
    }
  }

  lemma {:induction false} Injects(a: set<nat>, b: set<int>, f: nat --> int)
    requires forall i :: i in a ==> f.requires(i) && f(i) in b
    requires forall i, j :: i in a && j in a && f(i) == f(j) ==> i == j
    ensures |a| <= |b|
  {
    if i :| i in a {
      Injects(a - {i}, b - {f(i)}, f);
    }
  }

  /** A smaller cap gives the beginning of a larger cap's selection. */
  lemma {:induction false} SmallerCap(metas: seq<Meta>, textPages: nat, l: Limits, small: int, large: int)
    requires small <= large
    ensures Selected(metas, textPages, l, small) <= Selected(metas, textPages, l, large)
  {
  }

  // ----- which figures are kept

  /** On two pages at least, and on as many as the whole part of the given fraction of the text pages. */
  lemma RepeatedIff(metas: seq<Meta>, textPages: nat, l: Limits, hash: string)
    ensures var p := |PagesOf(metas, hash)|;
      Banned(metas, textPages, l, hash) <==> p >= 2 && (p + 1) as real > textPages as real * l.repeatFraction
  {
  }

  /** Large enough in every respect, and not repeated. */
  ghost predicate Figure(metas: seq<Meta>, textPages: nat, l: Limits, m: Meta) {
    && m.width >= l.minPixels && m.height >= l.minPixels && m.areaRatio >= l.minAreaRatio
    && var p := |PagesOf(metas, m.hash)|; p < 2 || (p + 1) as real <= textPages as real * l.repeatFraction
  }

  /** The first figure with its content on its page. */
  ghost predicate NewFigure(metas: seq<Meta>, textPages: nat, l: Limits, k: nat) {
    && k < |metas| && Figure(metas, textPages, l, metas[k])
    && forall j :: 0 <= j < k && Figure(metas, textPages, l, metas[j]) ==>
      metas[j].page != metas[k].page || metas[j].hash != metas[k].hash
  }

  ghost function NewBefore(metas: seq<Meta>, textPages: nat, l: Limits, k: nat): set<nat> {
    set j: nat | j < k && NewFigure(metas, textPages, l, j)
  }

  lemma NewIff(metas: seq<Meta>, textPages: nat, l: Limits, k: nat)
    requires k < |metas|
    ensures NewFigure(metas, textPages, l, k) <==> Qualifies(metas, textPages, l, k)
  {
    hide PagesOf, Banned, RepeatThreshold;
    forall j | 0 <= j < |metas|
      ensures Figure(metas, textPages, l, metas[j]) <==> Passes(metas, textPages, l, metas[j])
    {
      RepeatedIff(metas, textPages, l, metas[j].hash);
    }
    hide Figure, Passes;
  }

  lemma {:induction false} NewCounted(metas: seq<Meta>, textPages: nat, l: Limits, n: nat)
    requires n <= |metas|
    ensures |Qualifying(metas, textPages, l, n)| == |NewBefore(metas, textPages, l, n)|
  {
    if n > 0 {
      hide NewFigure, Qualifies, NewBefore;
      NewCounted(metas, textPages, l, n - 1);
      NewIff(metas, textPages, l, n - 1);
      NewNext(metas, textPages, l, n - 1);
    } else {
      assert NewBefore(metas, textPages, l, 0) == {};
    }
  }

  lemma NewNext(metas: seq<Meta>, textPages: nat, l: Limits, k: nat)
    ensures var before := NewBefore(metas, textPages, l, k);
      NewBefore(metas, textPages, l, k + 1) == (if NewFigure(metas, textPages, l, k) then before + {k} else before)
        && k !in before
  {
    hide NewFigure;
  }

  /** A candidate is selected exactly when it is a new figure with fewer of them before it than the cap, taken as one at least. */
  lemma {:induction false} SelectedIff(metas: seq<Meta>, textPages: nat, l: Limits, maxImages: int, k: nat)
    requires k < |metas|
    ensures k in Selected(metas, textPages, l, maxImages) <==>
      && NewFigure(metas, textPages, l, k)
      && |NewBefore(metas, textPages, l, k)| < (if maxImages > 1 then maxImages else 1)
  {
    hide Qualifies, NewFigure, NewBefore;
    var ks, at := Qualifying(metas, textPages, l, |metas|), |Qualifying(metas, textPages, l, k)|;
    NewIff(metas, textPages, l, k);
    NewCounted(metas, textPages, l, k);
    if Qualifies(metas, textPages, l, k) {
      QualifyingGrows(metas, textPages, l, k + 1, |metas|);
      assert Qualifying(metas, textPages, l, k + 1)[at] == k;
      assert ks[at] == k;
    }
  }
}
