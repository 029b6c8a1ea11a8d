/** The line under both tables: the number of rows left by the search and filters with its noun,
    pluralised unless there is exactly one, then the page indicator when there are rows at all. */
module TableFooter {
  import opened Text

  const PAGE := " \U{B7} Page "
  const SUR := " sur "

  /** ` · Page {pageIndex + 1} sur {pageCount}`: after its prefix, the 1-based page number, " sur ",
      and the page count, each number written as its decimal text (no leading zero) and reading back
      as itself. */
  function Indicator(pageIndex: nat, pageCount: nat): (r: string)
    ensures var p := |NatToString(pageIndex + 1)|;
            && |r| >= |PAGE| + p + |SUR| && r[..|PAGE|] == PAGE
            && IsDigits(r[|PAGE|..|PAGE| + p]) && DigitsValue(r[|PAGE|..|PAGE| + p]) == pageIndex + 1
            && r[|PAGE| + p..|PAGE| + p + |SUR|] == SUR
            && IsDigits(r[|PAGE| + p + |SUR|..]) && DigitsValue(r[|PAGE| + p + |SUR|..]) == pageCount
    ensures var p := |NatToString(pageIndex + 1)|;
            && |r| >= |PAGE| + p + |SUR|
            && r[|PAGE|..|PAGE| + p] == NatToString(pageIndex + 1)
            && r[|PAGE| + p + |SUR|..] == NatToString(pageCount)
  {
    var n1, n2 := NatToString(pageIndex + 1), NatToString(pageCount);
    var r := PAGE + n1 + SUR + n2;
    Parts(PAGE, n1, SUR + n2);
    Parts(PAGE + n1, SUR, n2);
    assert r == PAGE + n1 + (SUR + n2);
    assert r[..|PAGE|] == PAGE;
    ReadsAs(r[|PAGE|..|PAGE| + |n1|], pageIndex + 1);
    ReadsAs(r[|PAGE| + |n1| + |SUR|..], pageCount);
    r
  }

  /** `{count} {noun}{count !== 1 ? "s" : ""}{count > 0 && <> · Page {pageIndex + 1} sur {pageCount}</>}`:
      the count and its noun, the plural "s", and for a non-zero count the page indicator. */
  function FooterText(count: nat, noun: string, pageIndex: nat, pageCount: nat): (r: string)
    ensures var k := |NatToString(count)| + 1 + |noun|;
            && |r| >= k && r[..k] == NatToString(count) + " " + noun
            && ((|r| > k && r[k] == 's') <==> count != 1)
            && (count == 0 ==> |r| == k + 1)
            && (count > 0 ==> StartsWith(r[k + (if count != 1 then 1 else 0)..], PAGE))
  {
    var head := NatToString(count) + " " + noun;
    var plural := if count != 1 then "s" else "";
    var page := if count > 0 then Indicator(pageIndex, pageCount) else "";
    var r := head + plural + page;
    assert r[..|head|] == head;
    assert r[|head| + |plural|..] == page;
    assert |r| > |head| ==> r[|head|] == (plural + page)[0];
    assert count == 1 ==> plural + page == page && (|page| > 0 ==> page[0] == ' ');
    r
  }

  /** For a non-zero count the footer is the counted noun, then the page indicator. */
  lemma FooterIndicator(count: nat, noun: string, pageIndex: nat, pageCount: nat)
    requires count > 0
    ensures FooterText(count, noun, pageIndex, pageCount) == CountedNoun(count, noun) + Indicator(pageIndex, pageCount)
    ensures |CountedNoun(count, noun)| == |NatToString(count)| + 1 + |noun| + (if count != 1 then 1 else 0)
  {
  }

  /** `{count} {noun}{count !== 1 ? "s" : ""}` */
  function CountedNoun(count: nat, noun: string): string {
    NatToString(count) + " " + noun + (if count != 1 then "s" else "")
  }

  /** The decimal text of a number, wherever it is found, reads back as that number. */
  lemma ReadsAs(s: string, n: nat)
    requires s == NatToString(n)
    ensures IsDigits(s) && DigitsValue(s) == n
  {
    NatToStringRoundTrip(n);
  }

  /** The three parts of a concatenation are its slices. */
  lemma Parts(a: string, b: string, c: string)
    ensures var s := a + b + c; s[|a|..|a| + |b|] == b && s[|a| + |b|..] == c
  {
    var s := a + b + c;
    assert s[|a|..|a| + |b|] == b;
    assert s[|a| + |b|..] == c;
  }

  /** The count in front of the footer reads back as the number of rows. */
  lemma FooterCountReadsBack(count: nat, noun: string, pageIndex: nat, pageCount: nat)
    ensures var r := FooterText(count, noun, pageIndex, pageCount);
            var d := |NatToString(count)|;
            IsDigits(r[..d]) && DigitsValue(r[..d]) == count && r[d] == ' '
  {
    var r := FooterText(count, noun, pageIndex, pageCount);
    var d := |NatToString(count)|;
    var head := NatToString(count) + " " + noun;
    assert r[..|head|] == head;
    assert r[..d] == head[..d] == NatToString(count);
    assert r[d] == head[d] == ' ';
    NatToStringRoundTrip(count);
  }
}
