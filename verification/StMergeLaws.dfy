/**
 What merging keeps, in the terms of the file: the order of everything outside the moved lines, the
 lines under every header and their order, and the result of a second run.
 */
module StMergeLaws {
  import opened Options
  import opened StOptimizer
  import opened StMerge

  // --------------------------------------------------------------------------
  // Headers and order
  // --------------------------------------------------------------------------

  predicate IsFirst(items: seq<Item>, i: nat)
    requires i < |items|
  {
    items[i].Block? ==> forall j :: 0 <= j < i ==> !Opens(items[j], items[i].header)
  }

  /** An item without the lines of its block: its line, or its header and its END_IF */
  function Outline(item: Item): Item {
    match item
    case Plain(_) => item
    case Block(header, _, end) => Block(header, [], end)
  }

  function Outlines(items: seq<Item>): seq<Item> {
    seq(|items|, i requires 0 <= i < |items| => Outline(items[i]))
  }

  /** The outlines from position k on of the plain lines and the first block of each header */
  function Kept(items: seq<Item>, k: nat): seq<Item>
    requires k <= |items|
    decreases |items| - k
  {
    if k == |items| then []
    else (if IsFirst(items, k) then [Outline(items[k])] else []) + Kept(items, k + 1)
  }

  predicate DistinctHeaders(items: seq<Item>) {
    forall i, k | 0 <= i < k < |items| && items[i].Block? :: !Opens(items[k], items[i].header)
  }

  /** The headers seen before position k */
  ghost predicate SeenBefore(items: seq<Item>, k: nat, seen: seq<string>)
    requires k <= |items|
  {
    forall h :: h in seen <==> exists j :: 0 <= j < k && Opens(items[j], h)
  }

  lemma SeenNext(items: seq<Item>, k: nat, seen: seq<string>)
    requires k < |items| && SeenBefore(items, k, seen)
    ensures items[k].Plain? || items[k].header in seen ==> SeenBefore(items, k + 1, seen)
    ensures items[k].Block? && items[k].header !in seen ==> SeenBefore(items, k + 1, seen + [items[k].header])
    ensures IsFirst(items, k) <==> items[k].Plain? || items[k].header !in seen
  {
    if items[k].Plain? || items[k].header in seen {
      forall h
        ensures h in seen <==> exists j :: 0 <= j < k + 1 && Opens(items[j], h)
      {
        assert h in seen <==> exists j :: 0 <= j < k && Opens(items[j], h);
        if j :| 0 <= j < k + 1 && Opens(items[j], h) {
          assert j == k ==> h in seen;
        }
      }
    } else {
      var more := seen + [items[k].header];
      forall h
        ensures h in more <==> exists j :: 0 <= j < k + 1 && Opens(items[j], h)
      {
        assert h in seen <==> exists j :: 0 <= j < k && Opens(items[j], h);
        assert h == items[k].header ==> Opens(items[k], h);
        if j :| 0 <= j < k + 1 && Opens(items[j], h) {
          assert j == k ==> h == items[k].header;
        }
      }
    }
  }

  lemma {:induction false} MergeFromOrder(items: seq<Item>, k: nat, seen: seq<string>)
    requires k <= |items| && SeenBefore(items, k, seen)
    ensures Outlines(MergeFrom(items[k..], seen)) == Kept(items, k)
    decreases |items| - k
  {
    if k < |items| {
      hide SeenBefore, IsFirst, Bodies;
      SeenNext(items, k, seen);
      hide Outlines;
      var rest := items[k..];
      assert rest[0] == items[k] && rest[1..] == items[k + 1..];
      if items[k].Block? && items[k].header !in seen {
        var more := seen + [items[k].header];
        MergeFromOrder(items, k + 1, more);
        var body := items[k].body + Bodies(rest[1..], items[k].header);
        OutlinesCons(items[k].(body := body), MergeFrom(rest[1..], more));
      } else {
        MergeFromOrder(items, k + 1, seen);
        OutlinesCons(items[k], MergeFrom(rest[1..], seen));
        assert [] + Kept(items, k + 1) == Kept(items, k + 1);
      }
    }
  }

  lemma OutlinesCons(item: Item, items: seq<Item>)
    ensures Outlines([item] + items) == [Outline(item)] + Outlines(items)
  {
    hide Outline;
  }

  /** Plain lines, first headers and first END_IFs keep their order; later headers and END_IFs go. */
  lemma MergeOrder(items: seq<Item>)
    ensures Outlines(Merge(items)) == Kept(items, 0)
  {
    MergeFromOrder(items, 0, []);
    assert items[0..] == items;
  }

  lemma {:induction false} MergeFromDistinct(items: seq<Item>, seen: seq<string>)
    ensures DistinctHeaders(MergeFrom(items, seen))
    ensures forall i, h :: 0 <= i < |MergeFrom(items, seen)| && h in seen ==> !Opens(MergeFrom(items, seen)[i], h)
    decreases |items|
  {
    if |items| > 0 {
      hide Bodies;
      match items[0] {
        case Plain(_) =>
          MergeFromDistinct(items[1..], seen);
        case Block(header, _, _) =>
          if header in seen {
            MergeFromDistinct(items[1..], seen);
          } else {
            MergeFromDistinct(items[1..], seen + [header]);
            assert header in seen + [header];
            assert forall h :: h in seen ==> h in seen + [header];
          }
      }
    }
  }

  /** Each header is left once. */
  lemma MergeDistinct(items: seq<Item>)
    ensures DistinctHeaders(Merge(items))
  {
    MergeFromDistinct(items, []);
  }

  // --------------------------------------------------------------------------
  // The lines under the headers
  // --------------------------------------------------------------------------

  lemma {:induction false} NoBodies(items: seq<Item>, header: string)
    requires forall i :: 0 <= i < |items| ==> !Opens(items[i], header)
    ensures Bodies(items, header) == []
    decreases |items|
  {
    if |items| > 0 {
      assert !Opens(items[0], header);
      NoBodies(items[1..], header);
    }
  }

  lemma {:induction false} MergeFromBodies(items: seq<Item>, seen: seq<string>, header: string)
    requires header !in seen
    ensures Bodies(MergeFrom(items, seen), header) == Bodies(items, header)
    decreases |items|
  {
    if |items| > 0 {
      match items[0] {
        case Plain(_) =>
          MergeFromBodies(items[1..], seen, header);
          BodiesCons(items[0], MergeFrom(items[1..], seen), header);
        case Block(h, body, end) =>
          if h in seen {
            MergeFromBodies(items[1..], seen, header);
          } else {
            var rest := MergeFrom(items[1..], seen + [h]);
            BodiesCons(Block(h, body + Bodies(items[1..], h), end), rest, header);
            if h == header {
              MergeFromDistinct(items[1..], seen + [h]);
              assert header in seen + [h];
              NoBodies(rest, header);
            } else {
              MergeFromBodies(items[1..], seen + [h], header);
            }
          }
      }
    }
  }

  lemma BodiesCons(item: Item, items: seq<Item>, header: string)
    ensures Bodies([item] + items, header) == (if Opens(item, header) then item.body else []) + Bodies(items, header)
  {
    assert ([item] + items)[1..] == items;
  }

  /** Under every header, the merge has the lines of all its blocks in the order of the file. */
  lemma MergeBodies(items: seq<Item>, header: string)
    ensures Bodies(Merge(items), header) == Bodies(items, header)
  {
    MergeFromBodies(items, [], header);
  }

  /** All block lines, under the headers that are not in `seen` */
  function BlockLines(items: seq<Item>, seen: seq<string>): multiset<string> {
    if |items| == 0 then multiset{}
    else
      (if items[0].Block? && items[0].header !in seen then multiset(items[0].body) else multiset{})
      + BlockLines(items[1..], seen)
  }

  lemma MultisetJoined(a: seq<string>, b: seq<string>)
    ensures multiset(a + b) == multiset(a) + multiset(b)
  {
  }

  lemma {:induction false} BlockLinesSplit(items: seq<Item>, seen: seq<string>, header: string)
    requires header !in seen
    ensures BlockLines(items, seen) == multiset(Bodies(items, header)) + BlockLines(items, seen + [header])
    decreases |items|
  {
    if |items| > 0 {
      BlockLinesSplit(items[1..], seen, header);
      var first := if Opens(items[0], header) then items[0].body else [];
      assert Bodies(items, header) == first + Bodies(items[1..], header);
      MultisetJoined(first, Bodies(items[1..], header));
    }
  }

  lemma {:induction false} MergeFromConserves(items: seq<Item>, seen: seq<string>)
    ensures BlockLines(MergeFrom(items, seen), []) == BlockLines(items, seen)
    decreases |items|
  {
    if |items| > 0 {
      hide Bodies;
      match items[0] {
        case Plain(_) =>
          MergeFromConserves(items[1..], seen);
          BlockLinesCons(items[0], MergeFrom(items[1..], seen));
        case Block(header, body, end) =>
          if header in seen {
            MergeFromConserves(items[1..], seen);
          } else {
            var more := Bodies(items[1..], header);
            MergeFromConserves(items[1..], seen + [header]);
            BlockLinesCons(Block(header, body + more, end), MergeFrom(items[1..], seen + [header]));
            BlockLinesSplit(items[1..], seen, header);
            MultisetJoined(body, more);
          }
      }
    }
  }

  lemma BlockLinesCons(item: Item, items: seq<Item>)
    ensures BlockLines([item] + items, [])
         == (if item.Block? then multiset(item.body) else multiset{}) + BlockLines(items, [])
  {
    assert ([item] + items)[1..] == items;
  }

  /** No line inside a block is lost or doubled. */
  lemma MergeConserves(items: seq<Item>)
    ensures BlockLines(Merge(items), []) == BlockLines(items, [])
  {
    MergeFromConserves(items, []);
  }

  // --------------------------------------------------------------------------
  // A second run
  // --------------------------------------------------------------------------

  lemma {:induction false} BodiesBalanced(items: seq<Item>, header: string)
    requires WellFormed(items)
    ensures Balanced(Bodies(items, header))
    decreases |items|
  {
    hide Delta, IsIf;
    if |items| > 0 {
      BodiesBalanced(items[1..], header);
      assert WellFormedItem(items[0]);
      var first := if Opens(items[0], header) then items[0].body else [];
      assert Bodies(items, header) == first + Bodies(items[1..], header);
      WalkJoined(first, Bodies(items[1..], header), 1);
    }
  }

  lemma {:induction false} MergeFromWellFormed(items: seq<Item>, seen: seq<string>)
    requires WellFormed(items)
    ensures WellFormed(MergeFrom(items, seen))
    decreases |items|
  {
    hide Delta, IsIf, Walk, Bodies;
    if |items| > 0 {
      assert WellFormedItem(items[0]);
      match items[0] {
        case Plain(_) =>
          MergeFromWellFormed(items[1..], seen);
        case Block(header, body, end) =>
          if header in seen {
            MergeFromWellFormed(items[1..], seen);
          } else {
            MergeFromWellFormed(items[1..], seen + [header]);
            BodiesBalanced(items[1..], header);
            WalkJoined(body, Bodies(items[1..], header), 1);
          }
      }
    }
  }

  /** Files with distinct headers stay as they are. */
  lemma {:induction false} MergeFromFixed(items: seq<Item>, seen: seq<string>)
    requires DistinctHeaders(items)
    requires forall i, h :: 0 <= i < |items| && h in seen ==> !Opens(items[i], h)
    ensures MergeFrom(items, seen) == items
    decreases |items|
  {
    if |items| > 0 {
      assert items == [items[0]] + items[1..];
      match items[0] {
        case Plain(_) =>
          MergeFromFixed(items[1..], seen);
        case Block(header, body, end) =>
          assert Opens(items[0], header);
          MergeFromFixed(items[1..], seen + [header]);
          NoBodies(items[1..], header);
          assert body + [] == body;
      }
    }
  }

  lemma MergeIdempotent(items: seq<Item>)
    ensures Merge(Merge(items)) == Merge(items)
  {
    MergeDistinct(items);
    MergeFromFixed(Merge(items), []);
  }

  // Nested headers: a merged body repeats a header only if one of its parts did

  lemma NestedJoined(a: seq<string>, b: seq<string>, header: string)
    requires !Nested(a, header) && !Nested(b, header)
    ensures !Nested(a + b, header)
  {
    hide Delta;
    var s := a + b;
    forall k | 0 <= k < |s| && s[k] == header
      ensures k + 1 < |s| && Delta(s[k + 1]) == Some(-1)
    {
      if k < |a| {
        assert a[k] == header;
        assert s[k + 1] == a[k + 1];
      } else {
        assert b[k - |a|] == header;
        assert s[k + 1] == b[k + 1 - |a|];
      }
    }
  }

  lemma {:induction false} BodiesNotNested(items: seq<Item>, h: string, header: string)
    requires !HasStray(items, header) && h != header
    ensures !Nested(Bodies(items, h), header)
    decreases |items|
  {
    hide Delta, IsIf, Nested;
    if |items| == 0 {
      NothingNested(header);
    } else {
      StrayStep(items, header);
      BodiesNotNested(items[1..], h, header);
      var first := if Opens(items[0], h) then items[0].body else [];
      NothingNested(header);
      assert Bodies(items, h) == first + Bodies(items[1..], h);
      NestedJoined(first, Bodies(items[1..], h), header);
    }
  }

  lemma {:induction false} MergeFromNoStray(items: seq<Item>, seen: seq<string>, header: string)
    requires !HasStray(items, header)
    ensures !HasStray(MergeFrom(items, seen), header)
    decreases |items|
  {
    hide Delta, IsIf, Nested, Bodies, Walk, HasStray;
    if |items| == 0 {
      NoItemsNoStray(header);
    } else {
      StrayStep(items, header);
      match items[0] {
        case Plain(_) =>
          MergeFromNoStray(items[1..], seen, header);
          StrayStep(MergeFrom(items, seen), header);
          assert MergeFrom(items, seen)[1..] == MergeFrom(items[1..], seen);
        case Block(h, body, end) =>
          if h in seen {
            MergeFromNoStray(items[1..], seen, header);
          } else {
            MergeFromNoStray(items[1..], seen + [h], header);
            StrayStep(MergeFrom(items, seen), header);
            assert MergeFrom(items, seen)[1..] == MergeFrom(items[1..], seen + [h]);
            if h != header {
              BodiesNotNested(items[1..], h, header);
              NestedJoined(body, Bodies(items[1..], h), header);
            }
          }
      }
    }
  }

  lemma NoItemsNoStray(header: string)
    ensures !HasStray([], header)
  {
  }

  lemma {:induction false} MergeFromStrayFree(items: seq<Item>, seen: seq<string>)
    requires StrayFreeAfter(items, seen)
    ensures StrayFreeAfter(MergeFrom(items, seen), seen)
    decreases |items|
  {
    hide Delta, IsIf, Nested, Bodies, Walk, HasStray;
    if |items| > 0 {
      hide StrayFreeAfter;
      StrayFreeStep(items, seen);
      var merged := MergeFrom(items, seen);
      match items[0] {
        case Plain(_) =>
          MergeFromStrayFree(items[1..], seen);
          assert merged[1..] == MergeFrom(items[1..], seen);
          StrayFreeStep(merged, seen);
        case Block(h, body, end) =>
          if h in seen {
            MergeFromStrayFree(items[1..], seen);
          } else {
            MergeFromStrayFree(items[1..], seen + [h]);
            MergeFromNoStray(items[1..], seen + [h], h);
            assert merged[1..] == MergeFrom(items[1..], seen + [h]);
            StrayFreeStep(merged, seen);
          }
      }
    }
  }

  /** Run on its own result, the program changes nothing. */
  lemma SecondRunIsIdentity(file: seq<string>, newlineAtEnd: bool, newlineAtEndAgain: bool)
    requires Parse(file).Some? && StrayFree(Parse(file).value)
    ensures Optimized(file, newlineAtEnd).Some?
    ensures var once := Optimized(file, newlineAtEnd).value; Optimized(once, newlineAtEndAgain) == Some(once)
  {
    hide Parse, Optimized, Print, MergeFrom, StrayFreeAfter, WellFormed;
    var items := Parse(file).value;
    var merged := Merge(items);
    ParsePrints(file);
    OptimizerMergesIff(file, newlineAtEnd);
    MergeFromWellFormed(items, []);
    MergeFromStrayFree(items, []);
    PrintParses(merged);
    OptimizerMergesIff(Print(merged), newlineAtEndAgain);
    MergeIdempotent(items);
  }
}
