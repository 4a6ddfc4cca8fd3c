/**
 * Contact details guessed from a résumé (recruitment/views/views.py,
 * extract_info).
 *
 * The spans are extracted and ranked (module Spans); the full name is made
 * of the largest-font spans; then one pass over the ranked spans fills the
 * other fields. Phone, date of birth, zip code, e-mail and address are
 * filled at most once, by the first non-empty span that yields a non-empty
 * value; country and state are overwritten by every listed word, so the
 * last one wins.
 *
 * The regular expressions are inputs: for each, the text `search` finds in
 * a span (None when it finds nothing). So are the country and state lists.
 */
module Contact {
  import opened Common
  import Sorting
  import Spans
  import Dates

  datatype ContactInfo = ContactInfo(
    fullName: string,
    address: string,
    country: string,
    state: string,
    phoneNumber: string,
    dob: string,
    emailId: string,
    zip: string)

  /** What extract_info consults that lies outside the function. */
  datatype Lookups = Lookups(
    phoneSearch: string -> Option<string>,
    dobSearch: string -> Option<string>,
    emailSearch: string -> Option<string>,
    zipSearch: string -> Option<string>,
    countries: seq<string>,
    states: seq<string>)

  // ---------------------------------------------------------------------
  // The full name.

  function Texts(infos: seq<Spans.TextInfo>): (r: seq<string>)
    ensures |r| == |infos| && forall k :: 0 <= k < |infos| ==> r[k] == infos[k].text
  {
    seq(|infos|, k requires 0 <= k < |infos| => infos[k].text)
  }

  /** The largest font size among the spans. */
  function MaxFont(infos: seq<Spans.TextInfo>): (m: int)
    requires infos != []
    ensures forall k :: 0 <= k < |infos| ==> infos[k].fontSize <= m
    ensures exists k :: 0 <= k < |infos| && infos[k].fontSize == m
  {
    if |infos| == 1 then infos[0].fontSize
    else
      var m := MaxFont(infos[1..]);
      assert forall k :: 1 <= k < |infos| ==> infos[k] == infos[1..][k - 1];
      if infos[0].fontSize >= m then infos[0].fontSize else m
  }

  /** The texts of the spans of font size m, in order. */
  function TextsOfSize(infos: seq<Spans.TextInfo>, m: int): (r: seq<string>)
    ensures |r| <= |infos|
  {
    if infos == [] then []
    else (if infos[0].fontSize == m then [infos[0].text] else []) + TextsOfSize(infos[1..], m)
  }

  /** name_candidates: the texts of every span whose font size is the maximum. */
  function NameCandidates(infos: seq<Spans.TextInfo>): seq<string>
  {
    if infos == [] then [] else TextsOfSize(infos, MaxFont(infos))
  }

  function FullName(infos: seq<Spans.TextInfo>): string
  {
    var names := NameCandidates(infos);
    if names != [] then Join(names, " ") else ""
  }

  predicate FontNonIncreasing(infos: seq<Spans.TextInfo>)
  {
    forall i, j :: 0 <= i < j < |infos| ==> infos[i].fontSize >= infos[j].fontSize
  }

  lemma {:induction false} NoTextsOfSize(infos: seq<Spans.TextInfo>, m: int)
    requires forall k :: 0 <= k < |infos| ==> infos[k].fontSize < m
    ensures TextsOfSize(infos, m) == []
  {
    if infos != [] {
      assert forall k :: 0 <= k < |infos[1..]| ==> infos[1..][k] == infos[k + 1];
      NoTextsOfSize(infos[1..], m);
    }
  }

  /**
   * On spans in non-increasing font order, the spans of the largest size m
   * form a prefix, and TextsOfSize reads off exactly that prefix.
   */
  lemma {:induction false} TextsOfSizePrefix(infos: seq<Spans.TextInfo>, m: int) returns (k: nat)
    requires FontNonIncreasing(infos)
    requires forall i :: 0 <= i < |infos| ==> infos[i].fontSize <= m
    ensures k <= |infos|
    ensures forall i :: 0 <= i < |infos| ==> (i < k <==> infos[i].fontSize == m)
    ensures TextsOfSize(infos, m) == Texts(infos[..k])
  {
    if infos == [] {
      k := 0;
    } else if infos[0].fontSize == m {
      var rest := infos[1..];
      assert forall i :: 0 <= i < |rest| ==> rest[i] == infos[i + 1];
      var k' := TextsOfSizePrefix(rest, m);
      k := k' + 1;
      assert infos[..k] == [infos[0]] + rest[..k'];
      assert Texts(infos[..k]) == [infos[0].text] + Texts(rest[..k']);
    } else {
      k := 0;
      NoTextsOfSize(infos, m);
    }
  }

  /**
   * The full name of ranked spans: "" when there are none; otherwise the
   * " "-join of the texts of the leading spans that share the largest font
   * size, which are all the spans of that size.
   */
  lemma FullNameOfRanked(ranked: seq<Spans.TextInfo>) returns (k: nat)
    requires Sorting.SortedDesc(ranked, Spans.KeyGe)
    ensures ranked == [] ==> FullName(ranked) == ""
    ensures ranked != [] ==> 1 <= k <= |ranked| && FullName(ranked) == Join(Texts(ranked[..k]), " ")
    ensures ranked != [] ==> forall i :: 0 <= i < |ranked| ==> (i < k <==> ranked[i].fontSize == MaxFont(ranked))
  {
    if ranked == [] {
      k := 0;
    } else {
      k := TextsOfSizePrefix(ranked, MaxFont(ranked));
    }
  }

  // ---------------------------------------------------------------------
  // Fields filled once.

  /** What a regular-expression search contributes to a field: the matched text, or nothing. */
  function Found(search: string -> Option<string>, text: string): string
  {
    match search(text)
    case None => ""
    case Some(g) => g
  }

  function DobFound(search: string -> Option<string>, text: string): string
  {
    match search(text)
    case None => ""
    case Some(g) => Dates.DobMatching(g)
  }

  /** The address a span offers: when it mentions "address" in any case, the span without "Address:" and stripped. */
  function AddressFound(text: string): string
  {
    if Contains(Lower(text), "address") then Strip(ReplaceAll(text, "Address:", "")) else ""
  }

  /**
   * A field that stays unset while it is "": after scanning texts, the value
   * of the first non-empty text whose offer is non-empty.
   */
  function FirstFilled(texts: seq<string>, offer: string -> string): string
  {
    if texts == [] then ""
    else
      var before := FirstFilled(texts[..|texts| - 1], offer);
      var t := texts[|texts| - 1];
      if before != "" || t == "" then before else offer(t)
  }

  lemma {:induction false} FirstFilledIsFirst(texts: seq<string>, offer: string -> string)
    ensures var r := FirstFilled(texts, offer);
            r == "" <==> forall i :: 0 <= i < |texts| && texts[i] != "" ==> offer(texts[i]) == ""
    ensures var r := FirstFilled(texts, offer);
            r != "" ==> exists i :: 0 <= i < |texts| && texts[i] != "" && r == offer(texts[i])
                         && forall j :: 0 <= j < i && texts[j] != "" ==> offer(texts[j]) == ""
  {
    if texts != [] {
      var pre := texts[..|texts| - 1];
      FirstFilledIsFirst(pre, offer);
      assert forall i :: 0 <= i < |pre| ==> pre[i] == texts[i];
    }
  }

  /** Once set, a set-once field keeps its value whatever spans follow. */
  lemma {:induction false} FirstFilledStable(a: seq<string>, b: seq<string>, offer: string -> string)
    requires FirstFilled(a, offer) != ""
    ensures FirstFilled(a + b, offer) == FirstFilled(a, offer)
  {
    if b == [] {
      assert a + b == a;
    } else {
      assert (a + b)[..|a + b| - 1] == a + b[..|b| - 1];
      FirstFilledStable(a, b[..|b| - 1], offer);
    }
  }

  // ---------------------------------------------------------------------
  // Fields overwritten by every listed word.

  /** The last of the words whose capitalised form is listed. */
  function LastListedWord(words: seq<string>, list: seq<string>): Option<string>
  {
    if words == [] then None
    else if Capitalize(words[|words| - 1]) in list then Some(words[|words| - 1])
    else LastListedWord(words[..|words| - 1], list)
  }

  lemma {:induction false} LastListedWordIsLast(words: seq<string>, list: seq<string>)
    ensures LastListedWord(words, list).None? <==> forall i :: 0 <= i < |words| ==> Capitalize(words[i]) !in list
    ensures LastListedWord(words, list).Some? ==>
              exists i :: 0 <= i < |words| && LastListedWord(words, list).value == words[i]
                          && Capitalize(words[i]) in list
                          && forall j :: i < j < |words| ==> Capitalize(words[j]) !in list
  {
    if words != [] {
      var pre := words[..|words| - 1];
      LastListedWordIsLast(pre, list);
      assert forall i :: 0 <= i < |pre| ==> pre[i] == words[i];
    }
  }

  /** The space-separated words of the non-empty texts, in order. */
  function Words(texts: seq<string>): seq<string>
  {
    if texts == [] then []
    else
      Words(texts[..|texts| - 1])
      + (if texts[|texts| - 1] == "" then [] else Split(texts[|texts| - 1], ' '))
  }

  /** The last listed word over the texts, or "" when none. */
  function LastListed(texts: seq<string>, list: seq<string>): string
  {
    if texts == [] then ""
    else
      var t := texts[|texts| - 1];
      var w := if t == "" then None else LastListedWord(Split(t, ' '), list);
      if w.Some? then w.value else LastListed(texts[..|texts| - 1], list)
  }

  lemma {:induction false} LastListedWordAppend(a: seq<string>, b: seq<string>, list: seq<string>)
    ensures LastListedWord(a + b, list)
         == if LastListedWord(b, list).Some? then LastListedWord(b, list) else LastListedWord(a, list)
  {
    if b == [] {
      assert a + b == a;
    } else {
      assert (a + b)[..|a + b| - 1] == a + b[..|b| - 1];
      LastListedWordAppend(a, b[..|b| - 1], list);
    }
  }

  /** The country (or state) is the last listed word among all the words of all the texts. */
  lemma {:induction false} LastListedOverWords(texts: seq<string>, list: seq<string>)
    ensures LastListed(texts, list) == match LastListedWord(Words(texts), list)
                                       case None => ""
                                       case Some(w) => w
  {
    if texts != [] {
      var pre := texts[..|texts| - 1];
      var t := texts[|texts| - 1];
      LastListedOverWords(pre, list);
      var tail := if t == "" then [] else Split(t, ' ');
      LastListedWordAppend(Words(pre), tail, list);
    }
  }

  // ---------------------------------------------------------------------
  // The whole record.

  function PhoneOffer(lk: Lookups): string -> string { t => Found(lk.phoneSearch, t) }
  function DobOffer(lk: Lookups): string -> string { t => DobFound(lk.dobSearch, t) }
  function ZipOffer(lk: Lookups): string -> string { t => Found(lk.zipSearch, t) }
  function EmailOffer(lk: Lookups): string -> string { t => Found(lk.emailSearch, t) }
  function AddressOffer(): string -> string { t => AddressFound(t) }

  /** The record after scanning texts, the full name being name. */
  function Progress(texts: seq<string>, lk: Lookups, name: string): ContactInfo
  {
    ContactInfo(
      name,
      FirstFilled(texts, AddressOffer()),
      LastListed(texts, lk.countries),
      LastListed(texts, lk.states),
      FirstFilled(texts, PhoneOffer(lk)),
      FirstFilled(texts, DobOffer(lk)),
      FirstFilled(texts, EmailOffer(lk)),
      FirstFilled(texts, ZipOffer(lk)))
  }

  /** The record extract_info builds from the ranked spans. */
  function ContactOf(ranked: seq<Spans.TextInfo>, lk: Lookups): ContactInfo
  {
    Progress(Texts(ranked), lk, FullName(ranked))
  }

  /** The value a set-once field has after one more span. */
  function FillOnce(current: string, text: string, offer: string -> string): string
  {
    if current != "" || text == "" then current else offer(text)
  }

  /** The value a last-wins field has after one more span. */
  function Overwrite(current: string, text: string, list: seq<string>): string
  {
    if text == "" then current
    else match LastListedWord(Split(text, ' '), list) case None => current case Some(w) => w
  }

  /** The record after one more span. */
  function Advance(acc: ContactInfo, text: string, lk: Lookups): ContactInfo
  {
    ContactInfo(
      acc.fullName,
      FillOnce(acc.address, text, AddressOffer()),
      Overwrite(acc.country, text, lk.countries),
      Overwrite(acc.state, text, lk.states),
      FillOnce(acc.phoneNumber, text, PhoneOffer(lk)),
      FillOnce(acc.dob, text, DobOffer(lk)),
      FillOnce(acc.emailId, text, EmailOffer(lk)),
      FillOnce(acc.zip, text, ZipOffer(lk)))
  }

  lemma ProgressStep(texts: seq<string>, t: string, lk: Lookups, name: string)
    ensures Progress(texts + [t], lk, name) == Advance(Progress(texts, lk, name), t, lk)
  {
    assert (texts + [t])[..|texts|] == texts;
  }

  /** Scans the words of one span; the result is the last listed word, or current when none is listed. */
  method ScanWords(words: seq<string>, list: seq<string>, current: string) returns (r: string)
    ensures r == match LastListedWord(words, list) case None => current case Some(w) => w
  {
    r := current;
    var k := 0;
    while k < |words|
      invariant 0 <= k <= |words|
      invariant r == match LastListedWord(words[..k], list) case None => current case Some(w) => w
    {
      if Capitalize(words[k]) in list {
        r := words[k];
      }
      assert words[..k + 1][..k] == words[..k];
      k := k + 1;
    }
    assert words[..k] == words;
  }

  /** A set-once field filled from a regular-expression search: the if-not-set-then-search block. */
  method FillFromSearch(search: string -> Option<string>, text: string, current: string) returns (r: string)
    requires text != ""
    ensures r == FillOnce(current, text, t => Found(search, t))
  {
    r := current;
    if r == "" {
      var m := search(text);
      if m.Some? {
        r := m.value;
      }
    }
  }

  method FillDob(search: string -> Option<string>, text: string, current: string) returns (r: string)
    requires text != ""
    ensures r == FillOnce(current, text, t => DobFound(search, t))
  {
    r := current;
    if r == "" {
      var m := search(text);
      if m.Some? {
        r := Dates.DobMatching(m.value);
      }
    }
  }

  method FillAddress(text: string, current: string) returns (r: string)
    requires text != ""
    ensures r == FillOnce(current, text, AddressOffer())
  {
    r := current;
    if Contains(Lower(text), "address") && r == "" {
      r := Strip(ReplaceAll(text, "Address:", ""));
    }
  }

  method OverwriteFromWords(text: string, list: seq<string>, current: string) returns (r: string)
    requires text != ""
    ensures r == Overwrite(current, text, list)
  {
    var words := Split(text, ' ');
    r := ScanWords(words, list, current);
  }

  /** One turn of extract_info's loop; the full name is not touched. */
  method ReadSpan(text: string, lk: Lookups, acc: ContactInfo) returns (next: ContactInfo)
    ensures next == Advance(acc, text, lk)
  {
    if text == "" {
      return acc;
    }
    var phone := FillFromSearch(lk.phoneSearch, text, acc.phoneNumber);
    var dob := FillDob(lk.dobSearch, text, acc.dob);
    var zip := FillFromSearch(lk.zipSearch, text, acc.zip);
    var email := FillFromSearch(lk.emailSearch, text, acc.emailId);
    var address := FillAddress(text, acc.address);
    var country := OverwriteFromWords(text, lk.countries, acc.country);
    var state := OverwriteFromWords(text, lk.states, acc.state);
    next := ContactInfo(acc.fullName, address, country, state, phone, dob, email, zip);
  }

  /** The loop of extract_info over the ranked texts, starting from an empty record named name. */
  method ScanRanked(texts: seq<string>, lk: Lookups, name: string) returns (info: ContactInfo)
    ensures info == Progress(texts, lk, name)
  {
    info := ContactInfo(name, "", "", "", "", "", "", "");
    var i := 0;
    while i < |texts|
      invariant 0 <= i <= |texts|
      invariant info == Progress(texts[..i], lk, name)
    {
      assert texts[..i + 1] == texts[..i] + [texts[i]];
      ProgressStep(texts[..i], texts[i], lk, name);
      info := ReadSpan(texts[i], lk, info);
      i := i + 1;
    }
    assert texts[..i] == texts;
  }

  /** extract_info over the given document. */
  method ExtractInfo(doc: seq<Spans.Page>, lk: Lookups) returns (info: ContactInfo)
    ensures info == ContactOf(Spans.RankText(Spans.DocumentInfo(doc)), lk)
  {
    var textInfo := Spans.ExtractTextWithFontInfo(doc);
    var ranked := Spans.RankText(textInfo);
    var name := FullName(ranked);
    info := ScanRanked(Texts(ranked), lk, name);
  }
}
