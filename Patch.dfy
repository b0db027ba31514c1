/**
  The patch applier of `StrictIvars::BaseProcessor.call`: the collected
  `[offset, text]` annotations are sorted by offset and then inserted into a
  copy of the source from the last one to the first, so that every insertion
  still uses the offset it was recorded with.

  `Spliced` is the reference meaning of the result: the source with, in front
  of each position k (and at the very end), the texts of the annotations at
  offset k in the order they were recorded.
 */
module Patch {

  /** One insertion directive: `text` goes in front of source position `offset`. */
  datatype Annotation = Annotation(offset: nat, text: string)

  /** Annotations in ascending offset order. */
  predicate Sorted(anns: seq<Annotation>) {
    forall i, j | 0 <= i < j < |anns| :: anns[i].offset <= anns[j].offset
  }

  /** The annotations aimed at offset `k`, in their order in `anns`. */
  function AtOffset(anns: seq<Annotation>, k: nat): seq<Annotation> {
    if anns == [] then []
    else (if anns[0].offset == k then [anns[0]] else []) + AtOffset(anns[1..], k)
  }

  /** The total number of characters the annotations insert. */
  function TotalLength(anns: seq<Annotation>): nat {
    if anns == [] then 0 else |anns[0].text| + TotalLength(anns[1..])
  }

  /**
    One step of a stable insertion sort by offset: `a` goes in front of the
    first element whose offset is not smaller.
   */
  function InsertByOffset(a: Annotation, s: seq<Annotation>): seq<Annotation> {
    if s == [] || a.offset <= s[0].offset then [a] + s
    else [s[0]] + InsertByOffset(a, s[1..])
  }

  lemma {:induction false} InsertByOffsetPermutes(a: Annotation, s: seq<Annotation>)
    ensures multiset(InsertByOffset(a, s)) == multiset(s) + multiset{a}
    ensures TotalLength(InsertByOffset(a, s)) == |a.text| + TotalLength(s)
  {
    if s != [] && a.offset > s[0].offset {
      InsertByOffsetPermutes(a, s[1..]);
      assert s == [s[0]] + s[1..];
    }
  }

  lemma SortedCons(x: Annotation, t: seq<Annotation>)
    requires Sorted(t)
    requires forall b | b in t :: x.offset <= b.offset
    ensures Sorted([x] + t)
  {
    var r := [x] + t;
    forall i, j | 0 <= i < j < |r| ensures r[i].offset <= r[j].offset {
      assert r[j] == t[j - 1];
      if i > 0 {
        assert r[i] == t[i - 1];
      }
    }
  }

  lemma {:induction false} InsertByOffsetSorts(a: Annotation, s: seq<Annotation>)
    requires Sorted(s)
    ensures Sorted(InsertByOffset(a, s))
  {
    if s == [] || a.offset <= s[0].offset {
      forall b | b in s ensures a.offset <= b.offset {
        var j :| 0 <= j < |s| && s[j] == b;
        assert s[0].offset <= s[j].offset;
      }
      SortedCons(a, s);
    } else {
      var rest := InsertByOffset(a, s[1..]);
      assert Sorted(s[1..]) by {
        forall i, j | 0 <= i < j < |s[1..]| ensures s[1..][i].offset <= s[1..][j].offset {
          assert s[1..][i] == s[i + 1] && s[1..][j] == s[j + 1];
        }
      }
      InsertByOffsetSorts(a, s[1..]);
      InsertByOffsetPermutes(a, s[1..]);
      forall b | b in rest ensures s[0].offset <= b.offset {
        assert b in multiset(rest);
        if b != a {
          var j :| 0 <= j < |s[1..]| && s[1..][j] == b;
          assert s[0].offset <= s[j + 1].offset;
        }
      }
      SortedCons(s[0], rest);
    }
  }

  lemma {:induction false} InsertByOffsetAtOffset(a: Annotation, s: seq<Annotation>, k: nat)
    ensures AtOffset(InsertByOffset(a, s), k) == (if a.offset == k then [a] else []) + AtOffset(s, k)
  {
    var r := InsertByOffset(a, s);
    if s == [] || a.offset <= s[0].offset {
      assert r[1..] == s;
    } else {
      InsertByOffsetAtOffset(a, s[1..], k);
      assert r[0] == s[0] && r[1..] == InsertByOffset(a, s[1..]);
    }
  }

  /**
    `sort_by!(&:first)`, taken to be stable: the result is in ascending
    offset order, is a permutation of the input, and keeps the recorded order
    of annotations that share an offset.
   */
  function SortByOffset(anns: seq<Annotation>): (r: seq<Annotation>)
    ensures Sorted(r)
    ensures multiset(r) == multiset(anns)
    ensures forall k :: AtOffset(r, k) == AtOffset(anns, k)
    ensures TotalLength(r) == TotalLength(anns)
  {
    if anns == [] then []
    else
      var rest := SortByOffset(anns[1..]);
      InsertByOffsetPermutes(anns[0], rest);
      InsertByOffsetSorts(anns[0], rest);
      assert anns == [anns[0]] + anns[1..];
      assert forall k :: AtOffset(InsertByOffset(anns[0], rest), k) == AtOffset(anns, k) by {
        forall k ensures AtOffset(InsertByOffset(anns[0], rest), k) == AtOffset(anns, k) {
          InsertByOffsetAtOffset(anns[0], rest, k);
        }
      }
      InsertByOffset(anns[0], rest)
  }

  /** A character of the result: kept from the source, or one inserted text. */
  datatype Piece = Kept(c: char) | Inserted(text: string)

  /** The text of a sequence of pieces. */
  function Render(ps: seq<Piece>): string {
    if ps == [] then []
    else (match ps[0] case Kept(c) => [c] case Inserted(t) => t) + Render(ps[1..])
  }

  /** The characters of a sequence of pieces that came from the source. */
  function Originals(ps: seq<Piece>): string {
    if ps == [] then [] else (if ps[0].Kept? then [ps[0].c] else []) + Originals(ps[1..])
  }

  /** The inserted pieces of a list of annotations, in list order. */
  function Fragments(anns: seq<Annotation>): seq<Piece> {
    if anns == [] then [] else [Inserted(anns[0].text)] + Fragments(anns[1..])
  }

  function SplicedFrom(source: string, anns: seq<Annotation>, k: nat): seq<Piece>
    requires k <= |source|
    decreases |source| - k
  {
    Fragments(AtOffset(anns, k))
    + if k == |source| then [] else [Kept(source[k])] + SplicedFrom(source, anns, k + 1)
  }

  /** The source interleaved with the annotation texts, each in front of its offset. */
  function Spliced(source: string, anns: seq<Annotation>): seq<Piece> {
    SplicedFrom(source, anns, 0)
  }

  /**
    What `annotations.reverse_each { |offset, string| buffer.insert(offset, string) }`
    leaves in `buffer`: the last annotation is inserted first, the first one last.
   */
  function InsertAll(buffer: string, anns: seq<Annotation>): (r: string)
    requires forall a | a in anns :: a.offset <= |buffer|
    ensures |r| == |buffer| + TotalLength(anns)
  {
    if anns == [] then buffer
    else
      var rest := InsertAll(buffer, anns[1..]);
      rest[..anns[0].offset] + anns[0].text + rest[anns[0].offset..]
  }

  /** The outcome of the patch step: the new text, or Ruby's `IndexError`. */
  datatype Applied = Applied(text: string) | IndexError(offset: nat)

  /**
    Sorts the annotations and inserts them, highest offset first, into a copy
    of the source. `String#insert` raises `IndexError` for an offset past
    the end of the buffer; since the highest offset is inserted first, that
    happens exactly when some annotation lies past the end of the source.
   */
  method Apply(source: string, annotations: seq<Annotation>) returns (r: Applied)
    ensures r.Applied? <==> forall a | a in annotations :: a.offset <= |source|
    ensures r.Applied? ==> r.text == Render(Spliced(source, annotations))
    ensures r.IndexError? ==>
              r.offset > |source|
              && (exists a | a in annotations :: a.offset == r.offset)
              && forall a | a in annotations :: a.offset <= r.offset
  {
    var sorted := SortByOffset(annotations);
    SortKeepsMembers(annotations);
    var buffer := source;
    var i := |sorted|;
    while i > 0
      invariant 0 <= i <= |sorted|
      invariant forall b | b in sorted[i..] :: b.offset <= |source|
      invariant buffer == InsertAll(source, sorted[i..])
    {
      var a := sorted[i - 1];
      if a.offset > |buffer| {
        assert i == |sorted|;
        LastIsLargest(sorted);
        return IndexError(a.offset);
      }
      InsertAllStep(source, sorted, i);
      buffer := buffer[..a.offset] + a.text + buffer[a.offset..];
      i := i - 1;
    }
    assert sorted[0..] == sorted;
    SortedInsertAllIsSpliced(source, sorted);
    SortKeepsSplice(source, annotations);
    r := Applied(buffer);
  }

  /** One turn of the `reverse_each` loop, in terms of `InsertAll`. */
  lemma InsertAllStep(source: string, sorted: seq<Annotation>, i: nat)
    requires Sorted(sorted) && 0 < i <= |sorted|
    requires forall b | b in sorted[i..] :: b.offset <= |source|
    requires sorted[i - 1].offset <= |InsertAll(source, sorted[i..])|
    ensures forall b | b in sorted[i - 1..] :: b.offset <= |source|
    ensures InsertAll(source, sorted[i - 1..])
            == var buffer := InsertAll(source, sorted[i..]);
               var a := sorted[i - 1];
               buffer[..a.offset] + a.text + buffer[a.offset..]
  {
    var a := sorted[i - 1];
    if i < |sorted| {
      assert sorted[i] in sorted[i..];
      assert a.offset <= sorted[i].offset;
    }
    assert sorted[i - 1..] == [a] + sorted[i..];
  }

  lemma LastIsLargest(s: seq<Annotation>)
    requires Sorted(s) && s != []
    ensures forall b | b in s :: b.offset <= s[|s| - 1].offset
  {
    forall b | b in s ensures b.offset <= s[|s| - 1].offset {
      var j :| 0 <= j < |s| && s[j] == b;
    }
  }

  lemma SortKeepsMembers(anns: seq<Annotation>)
    ensures forall a :: a in SortByOffset(anns) <==> a in anns
  {
    var sorted := SortByOffset(anns);
    forall a ensures a in sorted <==> a in anns {
      assert a in sorted <==> a in multiset(sorted);
      assert a in anns <==> a in multiset(anns);
    }
  }

  lemma {:induction false} RenderConcat(p: seq<Piece>, q: seq<Piece>)
    ensures Render(p + q) == Render(p) + Render(q)
  {
    if p == [] {
      assert p + q == q;
    } else {
      assert (p + q)[0] == p[0] && (p + q)[1..] == p[1..] + q;
      RenderConcat(p[1..], q);
    }
  }

  lemma {:induction false} OriginalsConcat(p: seq<Piece>, q: seq<Piece>)
    ensures Originals(p + q) == Originals(p) + Originals(q)
  {
    if p == [] {
      assert p + q == q;
    } else {
      assert (p + q)[0] == p[0] && (p + q)[1..] == p[1..] + q;
      OriginalsConcat(p[1..], q);
    }
  }

  lemma {:induction false} FragmentsHaveNoOriginals(anns: seq<Annotation>)
    ensures Originals(Fragments(anns)) == []
  {
    if anns != [] {
      FragmentsHaveNoOriginals(anns[1..]);
    }
  }

  lemma {:induction false} SplicedFromKeepsSource(source: string, anns: seq<Annotation>, k: nat)
    requires k <= |source|
    ensures Originals(SplicedFrom(source, anns, k)) == source[k..]
    decreases |source| - k
  {
    var frags := Fragments(AtOffset(anns, k));
    FragmentsHaveNoOriginals(AtOffset(anns, k));
    if k == |source| {
      assert SplicedFrom(source, anns, k) == frags + [];
      OriginalsConcat(frags, []);
    } else {
      var rest := SplicedFrom(source, anns, k + 1);
      assert SplicedFrom(source, anns, k) == frags + ([Kept(source[k])] + rest);
      OriginalsConcat(frags, [Kept(source[k])] + rest);
      OriginalsConcat([Kept(source[k])], rest);
      SplicedFromKeepsSource(source, anns, k + 1);
      assert source[k..] == [source[k]] + source[k + 1..];
    }
  }

  /**
    Removing every inserted text from the result gives back the source:
    annotations only insert, never delete or reorder.
   */
  lemma SplicedKeepsSource(source: string, anns: seq<Annotation>)
    ensures Originals(Spliced(source, anns)) == source
  {
    SplicedFromKeepsSource(source, anns, 0);
  }

  /** Between offsets `k` and `m` where nothing is inserted, the source is copied. */
  lemma {:induction false} SplicedFromSkips(source: string, anns: seq<Annotation>, k: nat, m: nat)
    requires k <= m <= |source|
    requires forall j | k <= j < m :: AtOffset(anns, j) == []
    ensures Render(SplicedFrom(source, anns, k)) == source[k..m] + Render(SplicedFrom(source, anns, m))
    decreases m - k
  {
    if k < m {
      assert AtOffset(anns, k) == [];
      RenderSplicedFrom(source, anns, k);
      SplicedFromSkips(source, anns, k + 1, m);
      assert source[k..m] == [source[k]] + source[k + 1..m];
    }
  }

  /** With no annotations the result is the source, unchanged. */
  lemma SplicedWithoutAnnotations(source: string)
    ensures Render(Spliced(source, [])) == source
  {
    SplicedFromSkips(source, [], 0, |source|);
    assert SplicedFrom(source, [], |source|) == [];
  }

  /** `SplicedFrom` depends on the annotations only through what sits at each offset. */
  lemma {:induction false} SplicedFromAlike(source: string, s: seq<Annotation>, t: seq<Annotation>, k: nat)
    requires k <= |source|
    requires forall j | k <= j :: AtOffset(s, j) == AtOffset(t, j)
    ensures SplicedFrom(source, s, k) == SplicedFrom(source, t, k)
    decreases |source| - k
  {
    if k < |source| {
      SplicedFromAlike(source, s, t, k + 1);
    }
  }

  /**
    Sorting does not change the result: a stable sort keeps, at each offset,
    the annotations in their recorded order.
   */
  lemma SortKeepsSplice(source: string, anns: seq<Annotation>)
    ensures Spliced(source, SortByOffset(anns)) == Spliced(source, anns)
  {
    SplicedFromAlike(source, SortByOffset(anns), anns, 0);
  }

  lemma {:induction false} AtOffsetEmpty(anns: seq<Annotation>, k: nat)
    requires forall a | a in anns :: a.offset != k
    ensures AtOffset(anns, k) == []
  {
    if anns != [] {
      AtOffsetEmpty(anns[1..], k);
    }
  }

  /** Nothing is inserted before offset `o`, so the result starts with `source[..o]`. */
  lemma SplicedPrefix(source: string, anns: seq<Annotation>, o: nat)
    requires o <= |source|
    requires forall b | b in anns :: o <= b.offset
    ensures Render(Spliced(source, anns)) == source[..o] + Render(SplicedFrom(source, anns, o))
  {
    forall j | 0 <= j < o ensures AtOffset(anns, j) == [] {
      AtOffsetEmpty(anns, j);
    }
    SplicedFromSkips(source, anns, 0, o);
    assert source[0..o] == source[..o];
  }

  lemma AtOffsetCons(a: Annotation, t: seq<Annotation>, k: nat)
    ensures AtOffset([a] + t, k) == (if a.offset == k then [a] else []) + AtOffset(t, k)
  {
    assert ([a] + t)[1..] == t;
  }

  /** `SplicedFrom` unfolded one position, at the level of text. */
  lemma RenderSplicedFrom(source: string, anns: seq<Annotation>, k: nat)
    requires k <= |source|
    ensures Render(SplicedFrom(source, anns, k))
            == Render(Fragments(AtOffset(anns, k)))
               + if k == |source| then [] else [source[k]] + Render(SplicedFrom(source, anns, k + 1))
  {
    var frags := Fragments(AtOffset(anns, k));
    if k == |source| {
      assert SplicedFrom(source, anns, k) == frags + [];
      RenderConcat(frags, []);
    } else {
      var rest := SplicedFrom(source, anns, k + 1);
      assert SplicedFrom(source, anns, k) == frags + ([Kept(source[k])] + rest);
      RenderConcat(frags, [Kept(source[k])] + rest);
      RenderConcat([Kept(source[k])], rest);
    }
  }

  lemma RenderFragmentsCons(a: Annotation, t: seq<Annotation>)
    ensures Render(Fragments([a] + t)) == a.text + Render(Fragments(t))
  {
    assert ([a] + t)[1..] == t;
    assert Fragments([a] + t) == [Inserted(a.text)] + Fragments(t);
    RenderConcat([Inserted(a.text)], Fragments(t));
  }

  /** Past its offset, an annotation no longer affects the result. */
  lemma SplicedFromPast(source: string, a: Annotation, t: seq<Annotation>, k: nat)
    requires a.offset < k <= |source|
    ensures SplicedFrom(source, [a] + t, k) == SplicedFrom(source, t, k)
  {
    forall j | k <= j ensures AtOffset([a] + t, j) == AtOffset(t, j) {
      AtOffsetCons(a, t, j);
    }
    SplicedFromAlike(source, [a] + t, t, k);
  }

  /** The first of several annotations at the lowest offset comes out first. */
  lemma SplicedFromFront(source: string, a: Annotation, t: seq<Annotation>)
    requires a.offset <= |source|
    ensures Render(SplicedFrom(source, [a] + t, a.offset)) == a.text + Render(SplicedFrom(source, t, a.offset))
  {
    var o := a.offset;
    AtOffsetCons(a, t, o);
    RenderFragmentsCons(a, AtOffset(t, o));
    RenderSplicedFrom(source, [a] + t, o);
    RenderSplicedFrom(source, t, o);
    var x := Render(Fragments(AtOffset(t, o)));
    var y := if o == |source| then [] else [source[o]] + Render(SplicedFrom(source, t, o + 1));
    if o < |source| {
      SplicedFromPast(source, a, t, o + 1);
    }
    assert Render(SplicedFrom(source, [a] + t, o)) == (a.text + x) + y;
    assert Render(SplicedFrom(source, t, o)) == x + y;
    ConcatAssociates(a.text, x, y);
  }

  lemma ConcatAssociates<T>(p: seq<T>, q: seq<T>, r: seq<T>)
    ensures (p + q) + r == p + (q + r)
  {
  }

  /**
    Inserting a sorted list from its highest offset down produces the
    spliced text: each insertion happens at or before every text inserted
    earlier, so the offsets recorded against the original source stay valid.
   */
  lemma {:induction false} SortedInsertAllIsSpliced(source: string, anns: seq<Annotation>)
    requires Sorted(anns)
    requires forall a | a in anns :: a.offset <= |source|
    ensures InsertAll(source, anns) == Render(Spliced(source, anns))
  {
    if anns == [] {
      SplicedWithoutAnnotations(source);
    } else {
      var a, t := anns[0], anns[1..];
      var o := a.offset;
      assert anns == [a] + t;
      assert Sorted(t) by {
        forall i, j | 0 <= i < j < |t| ensures t[i].offset <= t[j].offset {
          assert t[i] == anns[i + 1] && t[j] == anns[j + 1];
        }
      }
      forall b | b in t ensures o <= b.offset {
        var j :| 0 <= j < |t| && t[j] == b;
        assert anns[0].offset <= anns[j + 1].offset;
      }
      SortedInsertAllIsSpliced(source, t);
      SplicedPrefix(source, t, o);
      SplicedPrefix(source, anns, o);
      SplicedFromFront(source, a, t);
    }
  }

  /** The applier adds exactly the inserted texts' length to the source. */
  lemma SplicedLength(source: string, anns: seq<Annotation>)
    requires forall a | a in anns :: a.offset <= |source|
    ensures |Render(Spliced(source, anns))| == |source| + TotalLength(anns)
  {
    var sorted := SortByOffset(anns);
    SortKeepsMembers(anns);
    SortedInsertAllIsSpliced(source, sorted);
    SortKeepsSplice(source, anns);
  }

  /** Input that is already in offset order is left as it is by the stable sort. */
  lemma {:induction false} SortOfSortedIsIdentity(anns: seq<Annotation>)
    requires Sorted(anns)
    ensures SortByOffset(anns) == anns
  {
    if anns != [] {
      SortOfSortedIsIdentity(anns[1..]);
      assert anns == [anns[0]] + anns[1..];
    }
  }

  /**
    Reading a splice annotation by annotation: from `k` the source is copied
    up to the next annotation's offset, then that annotation's text follows.
   */
  lemma SplicedFromNext(source: string, a: Annotation, t: seq<Annotation>, k: nat)
    requires k <= a.offset <= |source|
    requires forall b | b in t :: a.offset <= b.offset
    ensures Render(SplicedFrom(source, [a] + t, k))
            == source[k..a.offset] + a.text + Render(SplicedFrom(source, t, a.offset))
  {
    forall j | k <= j < a.offset ensures AtOffset([a] + t, j) == [] {
      AtOffsetEmpty([a] + t, j);
    }
    SplicedFromSkips(source, [a] + t, k, a.offset);
    SplicedFromFront(source, a, t);
  }

  /** With no annotations left, the rest of the source is copied unchanged. */
  lemma SplicedFromRest(source: string, k: nat)
    requires k <= |source|
    ensures Render(SplicedFrom(source, [], k)) == source[k..]
  {
    SplicedFromSkips(source, [], k, |source|);
    RenderSplicedFrom(source, [], |source|);
  }
}
