/**
 * `isCategoryListValid`: a comma-separated list of article categories is
 * valid when every entry, with surrounding whitespace removed, is one of
 * the eight category values. The empty value stands for "unspecified".
 */
module Category {
  import opened Text

  /** The values of the `Category` enumeration. */
  const Categories: seq<string> := ["backend", "frontend", "android", "ios", "ai", "devtools", "reading", ""]

  predicate IsCategory(s: string) {
    s in Categories
  }

  /** `categories.every(...)` over the trimmed entries. */
  function EveryCategory(parts: seq<string>): (ok: bool)
    ensures ok <==> forall i :: 0 <= i < |parts| ==> IsCategory(Trim(parts[i]))
  {
    if parts == [] then true else IsCategory(Trim(parts[0])) && EveryCategory(parts[1..])
  }

  function IsCategoryListValid(list: string): (ok: bool)
    ensures ok <==> forall part :: part in Split(list, ',') ==> IsCategory(Trim(part))
  {
    var parts := Split(list, ',');
    assert forall part :: part in parts <==> exists i :: 0 <= i < |parts| && parts[i] == part;
    EveryCategory(parts)
  }

  /** Whitespace contains no comma. */
  lemma WhitespaceHasNoComma(w: string)
    requires AllWhitespace(w)
    ensures ',' !in w
  {
  }

  /** An empty or blank list is accepted: its one entry trims to the unspecified category. */
  lemma BlankListAccepted(w: string)
    requires AllWhitespace(w)
    ensures IsCategoryListValid(w)
  {
    WhitespaceHasNoComma(w);
    SplitNoSeparator(w, ',');
    TrimStartWhitespace(w);
    assert Trim(w) == [] == Categories[7];
    assert EveryCategory([w]);
  }

  /** Whitespace around a single entry is ignored. */
  lemma PaddingIgnored(w1: string, c: string, w2: string)
    requires AllWhitespace(w1) && AllWhitespace(w2) && ',' !in c
    ensures IsCategoryListValid(w1 + c + w2) == IsCategoryListValid(c)
  {
    WhitespaceHasNoComma(w1);
    WhitespaceHasNoComma(w2);
    SplitNoSeparator(w1 + c + w2, ',');
    SplitNoSeparator(c, ',');
    TrimPadded(w1, c, w2);
  }

  lemma {:induction false} EveryConcat(pa: seq<string>, pb: seq<string>)
    ensures EveryCategory(pa + pb) == (EveryCategory(pa) && EveryCategory(pb))
  {
    if pa == [] {
      assert pa + pb == pb;
    } else {
      assert (pa + pb)[1..] == pa[1..] + pb;
      EveryConcat(pa[1..], pb);
    }
  }

  /** Joining two lists with a comma is valid exactly when both are. */
  lemma ValidConcat(a: string, b: string)
    ensures IsCategoryListValid(a + "," + b) == (IsCategoryListValid(a) && IsCategoryListValid(b))
  {
    assert a + "," + b == a + [','] + b;
    SplitAround(a, ',', b);
    EveryConcat(Split(a, ','), Split(b, ','));
  }

  /** The category values are plain: no comma and no surrounding whitespace. */
  lemma CategoriesArePlain(i: nat)
    requires i < |Categories|
    ensures ',' !in Categories[i] && Trim(Categories[i]) == Categories[i]
  {
    var c := Categories[i];
    TrimUnpadded(c);
  }

  /** A single category value is a valid list on its own. */
  lemma SingleCategoryValid(c: string)
    requires IsCategory(c)
    ensures ',' !in c && IsCategoryListValid(c)
  {
    var k :| 0 <= k < |Categories| && Categories[k] == c;
    CategoriesArePlain(k);
    SplitNoSeparator(c, ',');
    assert c in Split(c, ',') ==> IsCategory(Trim(c));
  }

  /** Any non-empty comma-joined list of category values is valid. */
  lemma {:induction false} JoinedCategoriesValid(cats: seq<string>)
    requires |cats| >= 1 && forall i :: 0 <= i < |cats| ==> IsCategory(cats[i])
    ensures IsCategoryListValid(Join(cats, ','))
  {
    SingleCategoryValid(cats[0]);
    if |cats| > 1 {
      JoinedCategoriesValid(cats[1..]);
      assert Join(cats, ',') == cats[0] + "," + Join(cats[1..], ',');
      ValidConcat(cats[0], Join(cats[1..], ','));
    }
  }

  /** Matching is exact: the lower-case value is accepted ... */
  lemma LowerCaseAccepted()
    ensures IsCategoryListValid("backend")
  {
    var c := Categories[0];
    assert c == "backend";
    CategoriesArePlain(0);
    SplitNoSeparator(c, ',');
    assert EveryCategory([c]);
  }

  /** ... and the same word capitalised is refused. */
  lemma CaseSensitive()
    ensures !IsCategoryListValid("Backend")
  {
    var upper := "Backend";
    SplitNoSeparator(upper, ',');
    assert upper in Split(upper, ',');
    UpperNotCategory();
  }

  lemma UpperNotCategory()
    ensures !IsCategory(Trim("Backend"))
  {
    var upper := "Backend";
    TrimUnpadded(upper);
    forall i | 0 <= i < |Categories|
      ensures Categories[i] != upper
    {
      if Categories[i] != [] {
        assert Categories[i][0] != upper[0];
      }
    }
  }
}
