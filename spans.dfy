/**
 * Text spans with font information (recruitment/views/views.py,
 * extract_text_with_font_info and rank_text).
 *
 * The PDF itself is not read here: a document is the already-parsed
 * page -> block -> line -> span structure that PyMuPDF's
 * `page.get_text("dict")` returns.
 */
module Spans {
  import opened Common
  import Sorting

  /** One span as the extractor reads it: its text and its font size. */
  datatype RawSpan = RawSpan(text: string, size: int)

  /** A block: text blocks carry lines of spans; an image block has no "lines" entry. */
  datatype Block = TextBlock(lines: seq<seq<RawSpan>>) | ImageBlock

  type Page = seq<Block>

  /** An exact non-negative fraction; the capitalization ratio upper / length. */
  datatype Ratio = Ratio(num: nat, den: pos)

  /** One entry of `text_info`: text, font size and capitalization ratio. */
  datatype TextInfo = TextInfo(text: string, fontSize: int, capitalization: Ratio)

  function InfoOf(s: RawSpan): (t: TextInfo)
    requires s.text != []
  {
    TextInfo(s.text, s.size, Ratio(UpperCount(s.text), |s.text|))
  }

  predicate NoEmpty(spans: seq<RawSpan>)
  {
    forall k :: 0 <= k < |spans| ==> spans[k].text != []
  }

  function Infos(spans: seq<RawSpan>): (r: seq<TextInfo>)
    requires NoEmpty(spans)
    ensures |r| == |spans|
  {
    seq(|spans|, k requires 0 <= k < |spans| => InfoOf(spans[k]))
  }

  /** The spans of all lines of a block, in line then span order. */
  function Flatten(lines: seq<seq<RawSpan>>): seq<RawSpan>
  {
    if lines == [] then [] else Flatten(lines[..|lines| - 1]) + lines[|lines| - 1]
  }

  /**
   * The spans of a block that get appended: an empty span makes the ratio
   * divide by zero, and the bare `except` around the block then drops that
   * span and everything after it in the block.
   */
  function Survivors(spans: seq<RawSpan>): (r: seq<RawSpan>)
    ensures NoEmpty(r)
    ensures |r| <= |spans| && r == spans[..|r|]
    ensures |r| < |spans| ==> spans[|r|].text == []
  {
    if spans == [] then []
    else if spans[0].text == [] then []
    else [spans[0]] + Survivors(spans[1..])
  }

  function BlockInfo(b: Block): seq<TextInfo>
  {
    match b
    case ImageBlock => []
    case TextBlock(lines) => Infos(Survivors(Flatten(lines)))
  }

  function PageInfo(blocks: seq<Block>): seq<TextInfo>
  {
    if blocks == [] then [] else PageInfo(blocks[..|blocks| - 1]) + BlockInfo(blocks[|blocks| - 1])
  }

  /** The whole `text_info` list of a document. */
  function DocumentInfo(doc: seq<Page>): seq<TextInfo>
  {
    if doc == [] then [] else DocumentInfo(doc[..|doc| - 1]) + PageInfo(doc[|doc| - 1])
  }

  lemma {:induction false} FlattenAppend(a: seq<seq<RawSpan>>, b: seq<seq<RawSpan>>)
    ensures Flatten(a + b) == Flatten(a) + Flatten(b)
  {
    if b == [] {
      assert a + b == a;
    } else {
      var b' := b[..|b| - 1];
      FlattenAppend(a, b');
      assert (a + b)[..|a + b| - 1] == a + b';
      assert (a + b)[|a + b| - 1] == b[|b| - 1];
      calc {
        Flatten(a + b);
        Flatten(a + b') + b[|b| - 1];
        Flatten(a) + Flatten(b') + b[|b| - 1];
        Flatten(a) + (Flatten(b') + b[|b| - 1]);
        Flatten(a) + Flatten(b);
      }
    }
  }

  /** Survivors is the longest prefix without an empty span. */
  lemma {:induction false} SurvivorsUnique(spans: seq<RawSpan>, n: nat)
    requires n <= |spans| && NoEmpty(spans[..n])
    requires n == |spans| || spans[n].text == []
    ensures Survivors(spans) == spans[..n]
  {
    if n > 0 {
      assert spans[..n][0] == spans[0];
      assert spans[1..][..n - 1] == spans[..n][1..];
      SurvivorsUnique(spans[1..], n - 1);
      assert spans[..n] == [spans[0]] + spans[1..][..n - 1];
    }
  }

  lemma InfosAppend(spans: seq<RawSpan>, s: RawSpan)
    requires NoEmpty(spans) && s.text != []
    ensures NoEmpty(spans + [s]) && Infos(spans + [s]) == Infos(spans) + [InfoOf(s)]
  {
  }

  /** The spans of a block split around line l. */
  lemma FlattenAround(lines: seq<seq<RawSpan>>, l: nat)
    requires l < |lines|
    ensures Flatten(lines) == Flatten(lines[..l]) + lines[l] + Flatten(lines[l + 1..])
  {
    SplitJoin(lines, l + 1);
    FlattenAppend(lines[..l + 1], lines[l + 1..]);
    FlattenLast(lines, l);
  }

  lemma FlattenLast(lines: seq<seq<RawSpan>>, l: nat)
    requires l < |lines|
    ensures Flatten(lines[..l + 1]) == Flatten(lines[..l]) + lines[l]
  {
    var upto := lines[..l + 1];
    assert upto[..l] == lines[..l];
  }

  lemma EmptySpanStopsBlock(lines: seq<seq<RawSpan>>, l: nat, k: nat)
    requires l < |lines| && k < |lines[l]| && lines[l][k].text == []
    requires NoEmpty(Flatten(lines[..l]) + lines[l][..k])
    ensures Survivors(Flatten(lines)) == Flatten(lines[..l]) + lines[l][..k]
  {
    var spans := lines[l];
    var done := Flatten(lines[..l]);
    FlattenAround(lines, l);
    var all := Flatten(lines);
    var n := |done| + k;
    assert all[..n] == done + spans[..k];
    assert all[n] == spans[k];
    SurvivorsUnique(all, n);
  }

  /** The body of the per-block `try`: the surviving spans of one block. */
  method ReadBlock(block: Block) returns (out: seq<TextInfo>)
    ensures out == BlockInfo(block)
  {
    match block {
      case ImageBlock =>
        out := [];
      case TextBlock(lines) =>
        out := [];
        var failed := false;
        var l := 0;
        while l < |lines| && !failed
          invariant 0 <= l <= |lines|
          invariant !failed ==> NoEmpty(Flatten(lines[..l])) && out == Infos(Flatten(lines[..l]))
          invariant failed ==> out == Infos(Survivors(Flatten(lines)))
        {
          var spans := lines[l];
          ghost var done := Flatten(lines[..l]);
          var k := 0;
          while k < |spans| && !failed
            invariant 0 <= k <= |spans|
            invariant !failed ==> NoEmpty(done + spans[..k]) && out == Infos(done + spans[..k])
            invariant failed ==> out == Infos(Survivors(Flatten(lines)))
          {
            if spans[k].text == [] {
              failed := true;
              EmptySpanStopsBlock(lines, l, k);
            } else {
              InfosAppend(done + spans[..k], spans[k]);
              assert spans[..k + 1] == spans[..k] + [spans[k]];
              assert done + spans[..k + 1] == (done + spans[..k]) + [spans[k]];
              out := out + [InfoOf(spans[k])];
            }
            k := k + 1;
          }
          if !failed {
            assert spans[..k] == spans;
            assert lines[..l + 1][..l] == lines[..l];
            assert Flatten(lines[..l + 1]) == done + spans;
          }
          l := l + 1;
        }
        if !failed {
          assert lines[..l] == lines;
          SurvivorsUnique(Flatten(lines), |Flatten(lines)|);
        }
    }
  }

  /** extract_text_with_font_info over an already-parsed document. */
  method ExtractTextWithFontInfo(doc: seq<Page>) returns (textInfo: seq<TextInfo>)
    ensures textInfo == DocumentInfo(doc)
  {
    textInfo := [];
    var p := 0;
    while p < |doc|
      invariant 0 <= p <= |doc|
      invariant textInfo == DocumentInfo(doc[..p])
    {
      var out := ReadPage(doc[p]);
      assert doc[..p + 1][..p] == doc[..p];
      textInfo := textInfo + out;
      p := p + 1;
    }
    assert doc[..p] == doc;
  }

  /** The loop over the blocks of one page. */
  method ReadPage(blocks: Page) returns (out: seq<TextInfo>)
    ensures out == PageInfo(blocks)
  {
    out := [];
    var b := 0;
    while b < |blocks|
      invariant 0 <= b <= |blocks|
      invariant out == PageInfo(blocks[..b])
    {
      var more := ReadBlock(blocks[b]);
      assert blocks[..b + 1][..b] == blocks[..b];
      out := out + more;
      b := b + 1;
    }
    assert blocks[..b] == blocks;
  }

  /** What every entry of text_info satisfies. */
  ghost predicate WellFormedInfo(t: TextInfo)
  {
    t.text != [] && t.capitalization == Ratio(UpperCount(t.text), |t.text|)
  }

  lemma {:induction false} PageInfoWellFormed(blocks: seq<Block>)
    ensures forall k :: 0 <= k < |PageInfo(blocks)| ==> WellFormedInfo(PageInfo(blocks)[k])
  {
    if blocks != [] {
      PageInfoWellFormed(blocks[..|blocks| - 1]);
    }
  }

  /**
   * Every emitted span has non-empty text and capitalization equal to its
   * upper-case count over its length: no empty span is ever emitted.
   */
  lemma {:induction false} DocumentInfoWellFormed(doc: seq<Page>)
    ensures forall k :: 0 <= k < |DocumentInfo(doc)| ==> WellFormedInfo(DocumentInfo(doc)[k])
  {
    if doc != [] {
      DocumentInfoWellFormed(doc[..|doc| - 1]);
      PageInfoWellFormed(doc[|doc| - 1]);
    }
  }

  /** A text block with no empty span contributes all of its spans, in line and span order. */
  lemma BlockWithoutEmptySpan(lines: seq<seq<RawSpan>>)
    requires NoEmpty(Flatten(lines))
    ensures BlockInfo(TextBlock(lines)) == Infos(Flatten(lines))
  {
    SurvivorsUnique(Flatten(lines), |Flatten(lines)|);
  }

  /** An empty span drops the rest of its block, later lines included, but not the block after it. */
  lemma EmptySpanCutsBlock(pre: seq<Block>, before: seq<RawSpan>, after: seq<seq<RawSpan>>, next: Block)
    requires NoEmpty(before)
    ensures var b := TextBlock([before + [RawSpan([], 0)]] + after);
            PageInfo(pre + [b] + [next]) == PageInfo(pre) + Infos(before) + BlockInfo(next)
  {
    var line := before + [RawSpan([], 0)];
    var lines := [line] + after;
    var b := TextBlock(lines);
    FlattenAppend([line], after);
    assert Flatten([line]) == Flatten([]) + line;
    var all := Flatten(lines);
    assert all[..|before|] == before;
    SurvivorsUnique(all, |before|);
    var bs := pre + [b] + [next];
    assert bs[..|bs| - 1] == pre + [b];
    assert (pre + [b])[..|pre|] == pre;
  }

  // ---------------------------------------------------------------------
  // rank_text: sorted by (font_size, capitalization), reverse=True.

  predicate RatioGe(x: Ratio, y: Ratio)
  {
    x.num * y.den >= y.num * x.den
  }

  /** The tuple comparison (font_size, capitalization) >= (font_size', capitalization'). */
  predicate KeyGe(a: TextInfo, b: TextInfo)
  {
    a.fontSize > b.fontSize || (a.fontSize == b.fontSize && RatioGe(a.capitalization, b.capitalization))
  }

  lemma MulMonotone(x: int, y: int, k: nat)
    requires x >= y
    ensures x * k >= y * k
  {
  }

  lemma MulCancel(x: int, y: int, k: pos)
    requires x * k >= y * k
    ensures x >= y
  {
    assert (x - y) * k >= 0;
  }

  lemma RatioGeTransitive(a: Ratio, b: Ratio, c: Ratio)
    requires RatioGe(a, b) && RatioGe(b, c)
    ensures RatioGe(a, c)
  {
    MulMonotone(a.num * b.den, b.num * a.den, c.den);
    MulMonotone(b.num * c.den, c.num * b.den, a.den);
    assert a.num * b.den * c.den == (a.num * c.den) * b.den;
    assert b.num * a.den * c.den == b.num * c.den * a.den;
    assert c.num * b.den * a.den == (c.num * a.den) * b.den;
    MulCancel(a.num * c.den, c.num * a.den, b.den);
  }

  lemma KeyGeTotalPreorder()
    ensures Sorting.TotalPreorder(KeyGe)
  {
    forall a: TextInfo, b: TextInfo, c: TextInfo | KeyGe(a, b) && KeyGe(b, c)
      ensures KeyGe(a, c)
    {
      if a.fontSize == b.fontSize == c.fontSize {
        RatioGeTransitive(a.capitalization, b.capitalization, c.capitalization);
      }
    }
  }

  /**
   * rank_text: a permutation of its input in non-increasing
   * (font_size, capitalization) order, where spans with equal keys keep their
   * input order.
   */
  function RankText(textInfo: seq<TextInfo>): (r: seq<TextInfo>)
    ensures multiset(r) == multiset(textInfo)
    ensures Sorting.SortedDesc(r, KeyGe)
    ensures forall x :: Sorting.Peers(r, x, KeyGe) == Sorting.Peers(textInfo, x, KeyGe)
  {
    KeyGeTotalPreorder();
    Sorting.SortDescSorted(textInfo, KeyGe);
    Sorting.SortDescStableAll(textInfo, KeyGe);
    Sorting.SortDesc(textInfo, KeyGe)
  }
}
