/**
 The tile-contents announcement. The objects at the effective tile are
 scanned in the object system's order; hidden objects, floor tiles and
 objects without a name are passed over; the remaining names are joined with
 ", " into a 1024-byte buffer that keeps a 15-byte reserve, and the list is
 capped at ten names followed by ", and more".

 `SelectedNames` says which names end up in the message, as a list;
 `AnnounceCurrentTileByScan` performs the byte-level scan with a position
 counter and `snprintf`, and is proved to produce that list's message.
 */
module TileContents {
  import opened Collaborators
  import opened CText
  import opened TileExplorer

  /** sizeof(announcement) */
  const BufferSize: nat := 1024
  /** The margin kept free before each name is admitted; it covers ", and more" and the NUL. */
  const Reserve: nat := 15
  /** kMaxAnnouncedObjects */
  const MaxAnnounced: nat := 10
  const Separator: string := ", "
  const MoreSuffix: string := ", and more"

  /** An object whose name is announced if there is room: not hidden, not a floor tile, with a non-empty name. */
  predicate Qualifies(o: Obj) {
    !o.hidden && !o.isTile && o.name.Some? && |o.name.value| > 0
  }

  /** The names of the qualifying objects, in enumeration order. */
  function QualifyingNames(objs: seq<Obj>): (r: seq<CString>)
    decreases |objs|
  {
    if |objs| == 0 then []
    else if Qualifies(objs[0]) then [objs[0].name.value] + QualifyingNames(objs[1..])
    else QualifyingNames(objs[1..])
  }

  /** `names` separated by ", ", with no separator before the first or after the last. */
  function Join(names: seq<string>): (r: string)
    decreases |names|
  {
    if |names| == 0 then ""
    else if |names| == 1 then names[0]
    else Join(names[..|names| - 1]) + Separator + names[|names| - 1]
  }

  /** Bytes a name takes in the message: its own, plus a separator unless it comes first. */
  function Cost(count: nat, name: string): (r: nat) {
    |name| + (if count > 0 then |Separator| else 0)
  }

  /** The admission test: the message so far, the name with its separator, and the reserve stay below the buffer size. */
  predicate Fits(pos: nat, count: nat, name: string) {
    pos + Cost(count, name) + Reserve < BufferSize
  }

  /**
   The names announced when the scan resumes at `objs` having already
   admitted `acc`: a qualifying name is admitted when it fits; one that does
   not fit is passed over and the scan goes on; once ten are admitted the
   scan stops.
   */
  function Select(objs: seq<Obj>, acc: seq<CString>): (r: seq<CString>)
    decreases |objs|
  {
    if |acc| >= MaxAnnounced || |objs| == 0 then acc
    else if Qualifies(objs[0]) && Fits(|Join(acc)|, |acc|, objs[0].name.value) then
      Select(objs[1..], acc + [objs[0].name.value])
    else Select(objs[1..], acc)
  }

  function SelectedNames(objs: seq<Obj>): (r: seq<CString>) {
    Select(objs, [])
  }

  /** The text spoken for a list of admitted names: "Empty", or the names, with ", and more" once there are ten. */
  function MessageFor(names: seq<string>): (r: string) {
    if |names| == 0 then "Empty"
    else if |names| >= MaxAnnounced then Join(names) + MoreSuffix
    else Join(names)
  }

  /**
   One step of the scan, as the code takes it, over object `o` given the names
   admitted before it: the name is appended when the object qualifies, fewer
   than ten names are in, and it fits; otherwise nothing changes.
   */
  function Admit(names: seq<CString>, o: Obj): (r: seq<CString>) {
    if |names| < MaxAnnounced && Qualifies(o) && Fits(|Join(names)|, |names|, o.name.value)
    then names + [o.name.value]
    else names
  }

  /** `a` is `b` with some elements left out, the rest kept in order. */
  predicate IsSubsequence<T(==)>(a: seq<T>, b: seq<T>)
    decreases |b|
  {
    if |a| == 0 then true
    else if |b| == 0 then false
    else (a[0] == b[0] && IsSubsequence(a[1..], b[1..])) || IsSubsequence(a, b[1..])
  }

  /** Room is left for the reserve after the joined names (trivially when there are none). */
  predicate WithinBudget(names: seq<string>) {
    |names| == 0 || |Join(names)| + Reserve < BufferSize
  }

  predicate NonEmptyNames(names: seq<string>) {
    forall i :: 0 <= i < |names| ==> |names[i]| > 0
  }

  // ---------------------------------------------------------------------------
  // Joining

  /** The joined text starts with the first name: there is no leading separator. */
  lemma {:induction false} JoinStartsWithFirst(names: seq<string>)
    requires |names| > 0
    ensures names[0] <= Join(names)
    decreases |names|
  {
    if |names| > 1 {
      JoinStartsWithFirst(names[..|names| - 1]);
    }
  }

  lemma JoinSnoc(names: seq<string>, n: string)
    ensures |names| == 0 ==> Join(names + [n]) == n
    ensures |names| > 0 ==> Join(names + [n]) == Join(names) + Separator + n
  {
  }

  /** Joining two non-empty lists puts one separator between their joins. */
  lemma {:induction false} JoinAppend(a: seq<string>, b: seq<string>)
    requires |a| > 0 && |b| > 0
    ensures Join(a + b) == Join(a) + Separator + Join(b)
    decreases |b|
  {
    var last := b[|b| - 1];
    var front := b[..|b| - 1];
    assert a + b == (a + front) + [last];
    JoinSnoc(a + front, last);
    if |front| == 0 {
      assert b == [last];
    } else {
      JoinAppend(a, front);
      JoinSnoc(front, last);
      assert b == front + [last];
    }
  }

  /** Adding names never shortens the joined text. */
  lemma JoinGrows(a: seq<string>, b: seq<string>)
    ensures |Join(a)| <= |Join(a + b)|
  {
    if |b| == 0 {
      assert a + b == a;
    } else if |a| > 0 {
      JoinAppend(a, b);
    }
  }

  /** The admission test is exactly "the joined text with the new name leaves room for the reserve". */
  lemma FitsMeansJoinFits(acc: seq<string>, n: string)
    ensures Fits(|Join(acc)|, |acc|, n) <==> |Join(acc + [n])| + Reserve < BufferSize
  {
  }

  // ---------------------------------------------------------------------------
  // Properties of the selection

  /**
   What the scan admits respects both limits: at most ten names, and the
   joined names leave room for the reserve, hence for ", and more" and the NUL.
   */
  lemma {:induction false} SelectWithinLimits(objs: seq<Obj>, acc: seq<CString>)
    requires |acc| <= MaxAnnounced && WithinBudget(acc) && NonEmptyNames(acc)
    ensures |Select(objs, acc)| <= MaxAnnounced
    ensures WithinBudget(Select(objs, acc))
    ensures NonEmptyNames(Select(objs, acc))
    decreases |objs|
  {
    if |acc| >= MaxAnnounced || |objs| == 0 {
    } else if Qualifies(objs[0]) && Fits(|Join(acc)|, |acc|, objs[0].name.value) {
      var n := objs[0].name.value;
      var grown := acc + [n];
      FitsMeansJoinFits(acc, n);
      assert WithinBudget(grown);
      assert NonEmptyNames(grown) by {
        forall i | 0 <= i < |grown|
          ensures |grown[i]| > 0
        {
          if i < |acc| {
            assert grown[i] == acc[i];
          }
        }
      }
      SelectWithinLimits(objs[1..], grown);
    } else {
      SelectWithinLimits(objs[1..], acc);
    }
  }

  /**
   The scan only appends to what it has admitted, and what it appends are
   qualifying names in enumeration order: never a hidden object, a floor tile
   or a missing or empty name, and never out of order.
   */
  lemma {:induction false} SelectKeepsOrder(objs: seq<Obj>, acc: seq<CString>)
    ensures acc <= Select(objs, acc)
    ensures IsSubsequence(Select(objs, acc)[|acc|..], QualifyingNames(objs))
    decreases |objs|
  {
    var r := Select(objs, acc);
    if |acc| >= MaxAnnounced || |objs| == 0 {
      assert r[|acc|..] == [];
    } else if Qualifies(objs[0]) && Fits(|Join(acc)|, |acc|, objs[0].name.value) {
      var n := objs[0].name.value;
      SelectKeepsOrder(objs[1..], acc + [n]);
      assert r[|acc|..][0] == n;
      assert r[|acc|..][1..] == r[|acc| + 1..];
    } else {
      SelectKeepsOrder(objs[1..], acc);
      if Qualifies(objs[0]) {
        assert QualifyingNames(objs)[1..] == QualifyingNames(objs[1..]);
      }
    }
  }

  /**
   The scan never looks past the tenth admitted name: once the cap is
   reached, objects enumerated after that point cannot change the result.
   */
  lemma {:induction false} CapStopsScan(objs: seq<Obj>, rest: seq<Obj>, acc: seq<CString>)
    requires |Select(objs, acc)| >= MaxAnnounced
    ensures Select(objs + rest, acc) == Select(objs, acc)
    decreases |objs|
  {
    if |acc| >= MaxAnnounced {
    } else if |objs| == 0 {
    } else {
      assert (objs + rest)[0] == objs[0];
      assert (objs + rest)[1..] == objs[1..] + rest;
      if Qualifies(objs[0]) && Fits(|Join(acc)|, |acc|, objs[0].name.value) {
        CapStopsScan(objs[1..], rest, acc + [objs[0].name.value]);
      } else {
        CapStopsScan(objs[1..], rest, acc);
      }
    }
  }

  /**
   Nothing is dropped for lack of room when there is room: if the first
   qualifying names up to the cap fit the budget together, exactly those are
   admitted.
   */
  lemma {:induction false} SelectTakesAllThatFit(objs: seq<Obj>, acc: seq<CString>)
    requires |acc| <= MaxAnnounced
    requires var q := QualifyingNames(objs);
             WithinBudget(acc + q[..Min(|q|, MaxAnnounced - |acc|)])
    ensures var q := QualifyingNames(objs);
            Select(objs, acc) == acc + q[..Min(|q|, MaxAnnounced - |acc|)]
    decreases |objs|
  {
    var q := QualifyingNames(objs);
    var m := Min(|q|, MaxAnnounced - |acc|);
    if |acc| >= MaxAnnounced || |objs| == 0 {
      assert q[..m] == [];
      assert acc + q[..m] == acc;
    } else if Qualifies(objs[0]) {
      var n := objs[0].name.value;
      var q' := QualifyingNames(objs[1..]);
      assert q == [n] + q';
      var m' := Min(|q'|, MaxAnnounced - |acc + [n]|);
      assert m == m' + 1;
      assert acc + q[..m] == (acc + [n]) + q'[..m'];
      JoinGrows(acc + [n], q'[..m']);
      FitsMeansJoinFits(acc, n);
      assert Fits(|Join(acc)|, |acc|, n);
      SelectTakesAllThatFit(objs[1..], acc + [n]);
    } else {
      SelectTakesAllThatFit(objs[1..], acc);
    }
  }

  function Min(a: int, b: int): (r: int) {
    if a < b then a else b
  }

  /**
   The scan read left to right: the names admitted from `objs` followed by
   `o` are those admitted from `objs`, then one step over `o`.
   */
  lemma {:induction false} SelectSnoc(objs: seq<Obj>, o: Obj, acc: seq<CString>)
    ensures Select(objs + [o], acc) == Admit(Select(objs, acc), o)
    decreases |objs|
  {
    if |acc| >= MaxAnnounced {
    } else if |objs| == 0 {
      assert objs + [o] == [o];
      assert [o][1..] == [];
    } else {
      assert (objs + [o])[0] == objs[0];
      assert (objs + [o])[1..] == objs[1..] + [o];
      if Qualifies(objs[0]) && Fits(|Join(acc)|, |acc|, objs[0].name.value) {
        SelectSnoc(objs[1..], o, acc + [objs[0].name.value]);
      } else {
        SelectSnoc(objs[1..], o, acc);
      }
    }
  }

  /** What is admitted from a prefix of the objects is a prefix of what is admitted from all of them. */
  lemma {:induction false} SelectExtendsPrefix(objs: seq<Obj>, k: nat, acc: seq<CString>)
    requires k <= |objs|
    ensures Select(objs[..k], acc) <= Select(objs, acc)
    decreases |objs| - k
  {
    if k == |objs| {
      assert objs[..k] == objs;
    } else {
      assert objs[..k + 1] == objs[..k] + [objs[k]];
      SelectSnoc(objs[..k], objs[k], acc);
      SelectExtendsPrefix(objs, k + 1, acc);
    }
  }

  /**
   A qualifying name is dropped only when ten names are already in or it does
   not fit in what is left of the budget, and the scan then goes on as if the
   object were absent; a name that fits while fewer than ten are in is
   announced, after everything admitted before it.
   */
  lemma NameDroppedOnlyWhenFullOrTooLong(objs: seq<Obj>, k: nat)
    requires k < |objs| && Qualifies(objs[k])
    ensures var before := SelectedNames(objs[..k]);
            |before| < MaxAnnounced && Fits(|Join(before)|, |before|, objs[k].name.value) ==>
              before + [objs[k].name.value] <= SelectedNames(objs)
    ensures var before := SelectedNames(objs[..k]);
            !(|before| < MaxAnnounced && Fits(|Join(before)|, |before|, objs[k].name.value)) ==>
              SelectedNames(objs[..k + 1]) == before
  {
    assert objs[..k + 1] == objs[..k] + [objs[k]];
    SelectSnoc(objs[..k], objs[k], []);
    SelectExtendsPrefix(objs, k + 1, []);
  }

  /**
   "Empty" is spoken exactly when no qualifying name would fit on its own:
   one name that fits the empty buffer is always announced.
   */
  lemma {:induction false} EmptyIffNoNameFits(objs: seq<Obj>)
    ensures SelectedNames(objs) == [] <==>
      forall i :: 0 <= i < |objs| && Qualifies(objs[i]) ==> !Fits(0, 0, objs[i].name.value)
    decreases |objs|
  {
    if |objs| > 0 {
      var empty: seq<CString> := [];
      assert |Join(empty)| == 0;
      if Qualifies(objs[0]) && Fits(0, 0, objs[0].name.value) {
        var first := [objs[0].name.value];
        assert Fits(|Join(empty)|, |empty|, objs[0].name.value);
        assert empty + [objs[0].name.value] == first;
        assert SelectedNames(objs) == Select(objs, empty) == Select(objs[1..], first);
        SelectKeepsOrder(objs[1..], first);
        assert |SelectedNames(objs)| > 0;
        assert !(0 <= 0 < |objs| && Qualifies(objs[0]) ==> !Fits(0, 0, objs[0].name.value));
      } else {
        EmptyIffNoNameFits(objs[1..]);
        assert forall i :: 1 <= i < |objs| ==> objs[i] == objs[1..][i - 1];
      }
    }
  }

  /** A tile with no qualifying object is announced as "Empty". */
  lemma NoQualifyingObjectIsEmpty(objs: seq<Obj>)
    requires QualifyingNames(objs) == []
    ensures MessageFor(SelectedNames(objs)) == "Empty"
  {
  }

  /**
   The announced message, whatever the objects: ten names or fewer, each the
   name of a qualifying object in enumeration order, and the whole text,
   ", and more" and the NUL included, inside the 1024-byte buffer.
   */
  lemma MessageProperties(objs: seq<Obj>)
    ensures |SelectedNames(objs)| <= MaxAnnounced
    ensures IsSubsequence(SelectedNames(objs), QualifyingNames(objs))
    ensures |MessageFor(SelectedNames(objs))| < BufferSize
    ensures |SelectedNames(objs)| > 0 ==> |Join(SelectedNames(objs))| + Reserve < BufferSize
    ensures |MessageFor(SelectedNames(objs))| > 0
  {
    SelectWithinLimits(objs, []);
    if |SelectedNames(objs)| > 0 {
      JoinStartsWithFirst(SelectedNames(objs));
    }
    SelectKeepsOrder(objs, []);
    assert SelectedNames(objs)[0..] == SelectedNames(objs);
  }

  /**
   With ten or more short qualifying names the first ten are announced, in
   order, followed by ", and more". The suffix follows as soon as the tenth
   name is admitted, so exactly ten objects and nothing after them still end
   in ", and more".
   */
  lemma ManyNamesSayAndMore(objs: seq<Obj>)
    requires |objs| >= MaxAnnounced
    requires forall i :: 0 <= i < |objs| ==> Qualifies(objs[i]) && |objs[i].name.value| <= 50
    ensures |QualifyingNames(objs)| == |objs|
    ensures SelectedNames(objs) == QualifyingNames(objs)[..MaxAnnounced]
    ensures MessageFor(SelectedNames(objs)) == Join(QualifyingNames(objs)[..MaxAnnounced]) + MoreSuffix
  {
    var q := QualifyingNames(objs);
    AllQualify(objs);
    var first := q[..MaxAnnounced];
    assert forall i :: 0 <= i < |first| ==> |first[i]| <= 50;
    JoinBound(first, 50);
    assert WithinBudget(first);
    var empty: seq<CString> := [];
    assert empty + q[..Min(|q|, MaxAnnounced - |empty|)] == first;
    SelectTakesAllThatFit(objs, empty);
  }

  lemma {:induction false} AllQualify(objs: seq<Obj>)
    requires forall i :: 0 <= i < |objs| ==> Qualifies(objs[i])
    ensures |QualifyingNames(objs)| == |objs|
    ensures forall i :: 0 <= i < |objs| ==> Qualifies(objs[i]) && QualifyingNames(objs)[i] == objs[i].name.value
    decreases |objs|
  {
    if |objs| > 0 {
      AllQualify(objs[1..]);
    }
  }

  lemma {:induction false} JoinBound(names: seq<string>, k: nat)
    requires forall i :: 0 <= i < |names| ==> |names[i]| <= k
    ensures |Join(names)| <= |names| * (k + |Separator|)
    decreases |names|
  {
    if |names| > 1 {
      JoinBound(names[..|names| - 1], k);
    }
  }

  // ---------------------------------------------------------------------------
  // The announcement

  /**
   What `announceCurrentTile` speaks, always interrupting: "No position"
   without an effective tile, otherwise the message for the names admitted
   from the objects at that tile on the current elevation.
   */
  function AnnounceCurrentTile(s: Explorer, w: World): (u: Utterance)
    ensures u.interrupt
    ensures EffectiveTile(s, w) == NoTile ==> u.text == "No position"
    ensures var t := EffectiveTile(s, w);
            t != NoTile ==>
              var names := SelectedNames(w.objectsAt(w.elevation, t));
              && (|names| == 0 ==> u.text == "Empty")
              && (0 < |names| < MaxAnnounced ==> u.text == Join(names))
              && (|names| >= MaxAnnounced ==> u.text == Join(names) + MoreSuffix)
    ensures |u.text| < BufferSize
    ensures |u.text| > 0
  {
    var tile := EffectiveTile(s, w);
    if tile == NoTile then Utterance("No position", true)
    else
      var objs := w.objectsAt(w.elevation, tile);
      MessageProperties(objs);
      Utterance(MessageFor(SelectedNames(objs)), true)
  }

  /**
   The scan as the code performs it: one pass over the objects with a byte
   position `pos`, a count of admitted names, `snprintf` into the 1024-byte
   buffer, and a `break` right after ", and more" is written. Its result is
   the announcement above, so in particular no `snprintf` ever truncates.
   */
  method AnnounceCurrentTileByScan(s: Explorer, w: World) returns (u: Utterance)
    ensures u == AnnounceCurrentTile(s, w)
  {
    var tile := EffectiveTile(s, w);
    if tile == NoTile {
      return Utterance("No position", true);
    }
    var objs := w.objectsAt(w.elevation, tile);
    var text: string := "";
    var pos: nat := 0;
    var objectCount: nat := 0;
    ghost var names: seq<CString> := [];
    var i := 0;
    while i < |objs|
      invariant 0 <= i <= |objs|
      invariant text == Join(names) && pos == |text|
      invariant objectCount == |names| < MaxAnnounced
      invariant WithinBudget(names)
      invariant Select(objs[i..], names) == SelectedNames(objs)
      decreases |objs| - i
    {
      var obj := objs[i];
      if !obj.hidden && !obj.isTile && obj.name.Some? && |obj.name.value| > 0 {
        var name := obj.name.value;
        var neededSpace := |name| + (if objectCount > 0 then 2 else 0) + Reserve;
        if pos + neededSpace < BufferSize {
          FitsMeansJoinFits(names, name);
          JoinSnoc(names, name);
          if objectCount > 0 {
            var (t, written) := Snprintf(text, pos, BufferSize, Separator);
            text, pos := t, pos + written;
          }
          var (t, written) := Snprintf(text, pos, BufferSize, name);
          text, pos := t, pos + written;
          objectCount := objectCount + 1;
          names := names + [name];
        }
        assert objs[i..][1..] == objs[i + 1..];
        if objectCount >= MaxAnnounced {
          text := Snprintf(text, pos, BufferSize, MoreSuffix).0;
          break;
        }
      } else {
        assert objs[i..][1..] == objs[i + 1..];
      }
      i := i + 1;
    }
    if objectCount == 0 {
      u := Utterance("Empty", true);
    } else {
      u := Utterance(text, true);
    }
  }
}
