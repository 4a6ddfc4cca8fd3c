/**
 * Ranking the résumés of a recruitment by the skills they mention
 * (recruitment/views/views.py, extract_words_from_pdf and matching_resumes).
 *
 * The words of a résumé are the maximal runs of \w characters of each
 * page's lower-cased text (re.findall(r"\b\w+\b", ...)). Each résumé scores
 * the number of skill titles whose lower-cased form is one of its words.
 * Résumés that are not yet candidates come first, then candidate résumés;
 * each group is sorted by score, highest first, stably.
 */
module SkillRanking {
  import opened Common
  import Sorting

  // ---------------------------------------------------------------------
  // Words.

  /** A non-empty run of \w characters. */
  predicate IsWord(w: string)
  {
    w != [] && forall i :: 0 <= i < |w| ==> IsWordChar(w[i])
  }

  /** The length of the run of \w characters at the start of s. */
  function RunLength(s: string): (n: nat)
    ensures n <= |s|
    ensures forall i :: 0 <= i < n ==> IsWordChar(s[i])
    ensures n < |s| ==> !IsWordChar(s[n])
  {
    if s == [] || !IsWordChar(s[0]) then 0 else 1 + RunLength(s[1..])
  }

  /** re.findall(r"\b\w+\b", s): the maximal runs of \w characters, left to right. */
  function Tokens(s: string): (r: seq<string>)
    ensures forall k :: 0 <= k < |r| ==> IsWord(r[k])
    decreases |s|
  {
    if s == [] then []
    else if !IsWordChar(s[0]) then Tokens(s[1..])
    else
      var n := RunLength(s);
      [s[..n]] + Tokens(s[n..])
  }

  /** A separator splits the tokens: the words of a + [c] + b are those of a, then those of b. */
  lemma {:induction false} TokensSeparated(a: string, c: char, b: string)
    requires !IsWordChar(c)
    ensures Tokens(a + [c] + b) == Tokens(a) + Tokens(b)
    decreases |a|
  {
    var s := a + [c] + b;
    if a == [] {
      assert s[1..] == b;
    } else if !IsWordChar(a[0]) {
      assert s[1..] == a[1..] + [c] + b;
      TokensSeparated(a[1..], c, b);
    } else {
      var n := RunLength(a);
      RunLengthExtends(a, [c] + b);
      assert s == a + ([c] + b);
      assert s[..n] == a[..n];
      if n == |a| {
        assert s[n..] == [c] + b;
        assert s[n..][1..] == b;
        assert a[n..] == [];
      } else {
        assert s[n..] == a[n..] + [c] + b;
        TokensSeparated(a[n..], c, b);
      }
    }
  }

  lemma {:induction false} RunLengthExtends(a: string, b: string)
    requires (b != [] && !IsWordChar(b[0])) || RunLength(a) < |a|
    ensures RunLength(a + b) == RunLength(a)
    decreases |a|
  {
    if a == [] {
    } else if IsWordChar(a[0]) {
      assert (a + b)[1..] == a[1..] + b;
      RunLengthExtends(a[1..], b);
    }
  }

  /** A single word is its own only token. */
  lemma WordIsOneToken(w: string)
    requires IsWord(w)
    ensures Tokens(w) == [w]
  {
    RunLengthOfWord(w);
    assert w[..|w|] == w && w[|w|..] == [];
  }

  lemma {:induction false} RunLengthOfWord(w: string)
    requires forall i :: 0 <= i < |w| ==> IsWordChar(w[i])
    ensures RunLength(w) == |w|
  {
    if w != [] {
      RunLengthOfWord(w[1..]);
    }
  }

  /** The words of all the pages, in page order. */
  function PagesWords(pages: seq<string>): (words: seq<string>)
    ensures forall k :: 0 <= k < |words| ==> IsWord(words[k])
  {
    if pages == [] then [] else PagesWords(pages[..|pages| - 1]) + Tokens(Lower(pages[|pages| - 1]))
  }

  /** extract_words_from_pdf over the given page texts. */
  method ExtractWordsFromPdf(pages: seq<string>) returns (words: seq<string>)
    ensures words == PagesWords(pages)
    ensures forall k :: 0 <= k < |words| ==> IsWord(words[k])
  {
    words := [];
    var p := 0;
    while p < |pages|
      invariant 0 <= p <= |pages|
      invariant words == PagesWords(pages[..p])
      invariant forall k :: 0 <= k < |words| ==> IsWord(words[k])
    {
      assert pages[..p + 1][..p] == pages[..p];
      words := words + Tokens(Lower(pages[p]));
      p := p + 1;
    }
    assert pages[..p] == pages;
  }

  // ---------------------------------------------------------------------
  // Scores.

  /** sum(skill.lower() in words for skill in skills) */
  function MatchCount(skills: seq<string>, words: seq<string>): (n: nat)
    ensures n <= |skills|
  {
    if skills == [] then 0
    else MatchCount(skills[..|skills| - 1], words) + (if Lower(skills[|skills| - 1]) in words then 1 else 0)
  }

  /**
   * A title counts only when its lower-cased form is a word: a title with a
   * space or a symbol in it, or an empty one, never counts; with no words at
   * all, the score is 0.
   */
  lemma {:induction false} OnlyWordTitlesCount(skills: seq<string>, words: seq<string>)
    requires forall k :: 0 <= k < |words| ==> IsWord(words[k])
    ensures (forall k :: 0 <= k < |skills| ==> !IsWord(Lower(skills[k]))) ==> MatchCount(skills, words) == 0
    ensures words == [] ==> MatchCount(skills, words) == 0
  {
    if skills != [] {
      OnlyWordTitlesCount(skills[..|skills| - 1], words);
    }
  }

  /** The score is the number of titles whose lower-cased form is among the words. */
  lemma {:induction false} MatchCountCounts(skills: seq<string>, words: seq<string>)
    ensures MatchCount(skills, words) == |set k | 0 <= k < |skills| && Lower(skills[k]) in words|
  {
    if skills != [] {
      var n := |skills| - 1;
      MatchCountCounts(skills[..n], words);
      var before := set k | 0 <= k < n && Lower(skills[..n][k]) in words;
      var now := set k | 0 <= k < |skills| && Lower(skills[k]) in words;
      assert before == set k | 0 <= k < n && Lower(skills[k]) in words;
      if Lower(skills[n]) in words {
        assert now == before + {n};
      } else {
        assert now == before;
      }
    }
  }

  // ---------------------------------------------------------------------
  // Ranking.

  datatype Resume = Resume(id: int, isCandidate: bool, pages: seq<string>)

  datatype ResumeRank = ResumeRank(resume: Resume, matchingSkillsCount: nat, imagePdf: bool)

  /** The entry matching_resumes builds for one résumé. */
  function RankOf(r: Resume, skills: seq<string>): ResumeRank
  {
    var words := PagesWords(r.pages);
    ResumeRank(r, MatchCount(skills, words), words == [])
  }

  /** image_pdf is set exactly when the résumé has no words, and then the score is 0. */
  lemma ImagePdfScoresZero(r: Resume, skills: seq<string>)
    ensures RankOf(r, skills).imagePdf <==> PagesWords(r.pages) == []
    ensures RankOf(r, skills).imagePdf ==> RankOf(r, skills).matchingSkillsCount == 0
  {
    OnlyWordTitlesCount(skills, PagesWords(r.pages));
  }

  function RanksOf(resumes: seq<Resume>, skills: seq<string>): (r: seq<ResumeRank>)
    ensures |r| == |resumes| && forall k :: 0 <= k < |r| ==> r[k] == RankOf(resumes[k], skills)
  {
    seq(|resumes|, k requires 0 <= k < |resumes| => RankOf(resumes[k], skills))
  }

  /** The ids of the résumés already turned into candidates. */
  function CandidateIds(resumes: seq<Resume>): set<int>
  {
    set k | 0 <= k < |resumes| && resumes[k].isCandidate :: resumes[k].id
  }

  /** The entries whose résumé id is (inGroup) or is not in ids, in order. */
  function Group(ranks: seq<ResumeRank>, ids: set<int>, inGroup: bool): (r: seq<ResumeRank>)
    ensures forall k :: 0 <= k < |r| ==> (r[k].resume.id in ids <==> inGroup)
  {
    if ranks == [] then []
    else (if (ranks[0].resume.id in ids) == inGroup then [ranks[0]] else []) + Group(ranks[1..], ids, inGroup)
  }

  lemma {:induction false} GroupsPartition(ranks: seq<ResumeRank>, ids: set<int>)
    ensures multiset(Group(ranks, ids, false)) + multiset(Group(ranks, ids, true)) == multiset(ranks)
  {
    if ranks != [] {
      GroupsPartition(ranks[1..], ids);
      assert ranks == [ranks[0]] + ranks[1..];
    }
  }

  predicate CountGe(a: ResumeRank, b: ResumeRank)
  {
    a.matchingSkillsCount >= b.matchingSkillsCount
  }

  lemma CountGeTotalPreorder()
    ensures Sorting.TotalPreorder(CountGe)
  {
  }

  /** One group after sorted(..., reverse=True): its entries, by score, stably. */
  lemma SortedGroup(ranks: seq<ResumeRank>, ids: set<int>, inGroup: bool)
    ensures var g := Group(ranks, ids, inGroup);
            var s := Sorting.SortDesc(g, CountGe);
            && (forall k :: 0 <= k < |s| ==> (s[k].resume.id in ids <==> inGroup))
            && Sorting.SortedDesc(s, CountGe)
            && (forall x :: Sorting.Peers(s, x, CountGe) == Sorting.Peers(g, x, CountGe))
  {
    var g := Group(ranks, ids, inGroup);
    var s := Sorting.SortDesc(g, CountGe);
    CountGeTotalPreorder();
    Sorting.SortDescSorted(g, CountGe);
    Sorting.SortDescStableAll(g, CountGe);
    forall k | 0 <= k < |s| ensures (s[k].resume.id in ids <==> inGroup) {
      assert s[k] in multiset(g);
    }
  }

  /** The ordering of matching_resumes over the scored entries. */
  function ArrangeRanks(ranks: seq<ResumeRank>, ids: set<int>): (r: seq<ResumeRank>)
    ensures multiset(r) == multiset(ranks)
    ensures var n := |Group(ranks, ids, false)|;
            && n <= |r|
            && (forall k :: 0 <= k < n ==> r[k].resume.id !in ids)
            && (forall k :: n <= k < |r| ==> r[k].resume.id in ids)
            && Sorting.SortedDesc(r[..n], CountGe)
            && Sorting.SortedDesc(r[n..], CountGe)
            && (forall x :: Sorting.Peers(r[..n], x, CountGe) == Sorting.Peers(Group(ranks, ids, false), x, CountGe))
            && (forall x :: Sorting.Peers(r[n..], x, CountGe) == Sorting.Peers(Group(ranks, ids, true), x, CountGe))
  {
    var a := Sorting.SortDesc(Group(ranks, ids, false), CountGe);
    var b := Sorting.SortDesc(Group(ranks, ids, true), CountGe);
    SortedGroup(ranks, ids, false);
    SortedGroup(ranks, ids, true);
    GroupsPartition(ranks, ids);
    var r := a + b;
    var n := |Group(ranks, ids, false)|;
    assert n == |a| by {
      assert |multiset(a)| == |a| && |multiset(Group(ranks, ids, false))| == n;
    }
    assert r[..n] == a && r[n..] == b;
    r
  }

  /** The score list itself, before ordering: one entry per résumé, in order. */
  method ScoreResumes(resumes: seq<Resume>, skills: seq<string>) returns (ranks: seq<ResumeRank>)
    ensures ranks == RanksOf(resumes, skills)
  {
    ranks := [];
    var k := 0;
    while k < |resumes|
      invariant 0 <= k <= |resumes|
      invariant ranks == RanksOf(resumes[..k], skills)
    {
      var words := ExtractWordsFromPdf(resumes[k].pages);
      var count := MatchCount(skills, words);
      var item := ResumeRank(resumes[k], count, false);
      if |words| == 0 {
        item := item.(imagePdf := true);
      }
      ranks := ranks + [item];
      k := k + 1;
    }
    assert resumes[..k] == resumes;
  }

  /** matching_resumes over a recruitment's résumés and skill titles. */
  method MatchingResumes(resumes: seq<Resume>, skills: seq<string>) returns (ranked: seq<ResumeRank>)
    ensures ranked == ArrangeRanks(RanksOf(resumes, skills), CandidateIds(resumes))
  {
    var ids := CandidateIds(resumes);
    var ranks := ScoreResumes(resumes, skills);
    ranked := ArrangeRanks(ranks, ids);
  }
}
