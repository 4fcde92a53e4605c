/**
 * `formatWithThousandsSeparator` of staticfiles/js/utils.769c4292ad42.js:
 * the characters of a number's text (`num.toString()`), grouped in threes
 * from the right and joined with commas. Every character is grouped, a
 * minus sign and a decimal point included.
 */
module ThousandsSeparator {

  const SEPARATOR := ','

  function Min(a: int, b: int): int { if a <= b then a else b }

  /** `s.split("").reverse()` */
  function Reverse(s: string): string
  {
    seq(|s|, k requires 0 <= k < |s| => s[|s| - 1 - k])
  }

  /** The groups of the text, left to right: three characters each, the first one shorter. */
  function Groups(s: string): seq<string>
    decreases |s|
  {
    if |s| == 0 then []
    else if |s| <= 3 then [s]
    else Groups(s[..|s| - 3]) + [s[|s| - 3..]]
  }

  /** `parts.join(sep)` */
  function Join(parts: seq<string>, sep: char): string
  {
    if |parts| == 0 then ""
    else if |parts| == 1 then parts[0]
    else Join(parts[..|parts| - 1], sep) + [sep] + parts[|parts| - 1]
  }

  /** The text with every `c` taken out. */
  function Erase(s: string, c: char): string
  {
    if s == [] then [] else (if s[0] == c then [] else [s[0]]) + Erase(s[1..], c)
  }

  /** The number of occurrences of `c`. */
  function Count(s: string, c: char): nat
  {
    if s == [] then 0 else (if s[0] == c then 1 else 0) + Count(s[1..], c)
  }

  /** The groups written one after the other. */
  function Concat(parts: seq<string>): string
  {
    if parts == [] then [] else Concat(parts[..|parts| - 1]) + parts[|parts| - 1]
  }

  /**
   * The chunk of the reversed text starting at `i`, turned back round, is
   * the slice of the text that ends `i` characters from its end.
   */
  lemma ReversedChunk(s: string, i: nat, j: nat)
    requires i <= j <= |s|
    ensures Reverse(Reverse(s)[i..j]) == s[|s| - j..|s| - i]
  {
  }

  /** The groups of a prefix, extended by the next chunk to its right. */
  lemma GroupsOfLongerPrefix(s: string, m: nat)
    requires 0 < m <= |s|
    ensures Groups(s[..m]) == Groups(s[..m - Min(3, m)]) + [s[m - Min(3, m)..m]]
  {
    if m <= 3 {
      assert s[..m - Min(3, m)] == [];
    } else {
      assert s[..m][..m - 3] == s[..m - 3];
      assert s[..m][m - 3..] == s[m - 3..m];
    }
  }

  method FormatWithThousandsSeparator(numAsString: string) returns (r: string)
    ensures r == Join(Groups(numAsString), SEPARATOR)
  {
    var characters := Reverse(numAsString);
    var n := |characters|;
    var parts: seq<string> := [];
    var i := 0;
    assert numAsString[..n] == numAsString;
    while i < n
      invariant i % 3 == 0 && 0 <= i < n + 3
      invariant Groups(numAsString[..if i < n then n - i else 0]) + parts == Groups(numAsString)
      decreases n - i
    {
      var part := Reverse(characters[i..Min(i + 3, n)]);
      ReversedChunk(numAsString, i, Min(i + 3, n));
      GroupsOfLongerPrefix(numAsString, n - i);
      parts := [part] + parts;
      i := i + 3;
    }
    assert numAsString[..0] == [] && Groups(numAsString[..0]) == [];
    assert parts == Groups(numAsString);
    r := Join(parts, SEPARATOR);
  }

  lemma {:induction false} EraseAppend(a: string, b: string, c: char)
    ensures Erase(a + b, c) == Erase(a, c) + Erase(b, c)
    ensures Count(a + b, c) == Count(a, c) + Count(b, c)
    decreases |a|
  {
    if a == [] {
      assert a + b == b;
    } else {
      assert (a + b)[1..] == a[1..] + b;
      EraseAppend(a[1..], b, c);
    }
  }

  lemma {:induction false} EraseAbsent(s: string, c: char)
    requires c !in s
    ensures Erase(s, c) == s && Count(s, c) == 0
    decreases |s|
  {
    if s != [] {
      assert s == [s[0]] + s[1..];
      EraseAbsent(s[1..], c);
    }
  }

  /** Joined comma-free parts, commas erased, are the parts one after the other. */
  lemma {:induction false} EraseJoin(parts: seq<string>, c: char)
    requires forall k :: 0 <= k < |parts| ==> c !in parts[k]
    ensures Erase(Join(parts, c), c) == Concat(parts)
    ensures |parts| > 0 ==> Count(Join(parts, c), c) == |parts| - 1
    decreases |parts|
  {
    if |parts| == 1 {
      EraseAbsent(parts[0], c);
      assert Concat(parts) == Concat([]) + parts[0];
    } else if |parts| > 1 {
      var init, last := parts[..|parts| - 1], parts[|parts| - 1];
      EraseJoin(init, c);
      EraseAbsent(last, c);
      EraseAppend(Join(init, c) + [c], last, c);
      EraseAppend(Join(init, c), [c], c);
      assert Erase([c], c) == [] && Count([c], c) == 1 by {
        assert [c][1..] == [];
      }
    }
  }

  /** The groups cover the text, in order. */
  lemma {:induction false} GroupsCover(s: string)
    ensures Concat(Groups(s)) == s
    decreases |s|
  {
    if 0 < |s| <= 3 {
      assert Concat(Groups(s)) == Concat([]) + s;
    } else if |s| > 3 {
      var init := s[..|s| - 3];
      GroupsCover(init);
      var g := Groups(s);
      assert g[..|g| - 1] == Groups(init);
      assert s == init + s[|s| - 3..];
    }
  }

  /**
   * There are ceil(n / 3) groups; the first holds one to three characters
   * and every later one exactly three.
   */
  lemma {:induction false} GroupsSizes(s: string)
    ensures |Groups(s)| == (|s| + 2) / 3
    ensures |s| > 0 ==> 1 <= |Groups(s)[0]| <= 3
    ensures forall k :: 1 <= k < |Groups(s)| ==> |Groups(s)[k]| == 3
    decreases |s|
  {
    if |s| > 3 {
      GroupsSizes(s[..|s| - 3]);
    }
  }

  lemma {:induction false} GroupsAreCommaFree(s: string, c: char)
    requires c !in s
    ensures forall k :: 0 <= k < |Groups(s)| ==> c !in Groups(s)[k]
    decreases |s|
  {
    if |s| > 3 {
      var init, last := s[..|s| - 3], s[|s| - 3..];
      assert c !in init && c !in last by {
        assert s == init + last;
      }
      GroupsAreCommaFree(init, c);
    }
  }

  /** Taking the commas out of the formatted text gives the number's text back. */
  lemma SeparatorsEraseToInput(s: string)
    requires SEPARATOR !in s
    ensures Erase(Join(Groups(s), SEPARATOR), SEPARATOR) == s
  {
    GroupsAreCommaFree(s, SEPARATOR);
    EraseJoin(Groups(s), SEPARATOR);
    GroupsCover(s);
  }

  /** A text of n >= 1 characters receives ceil(n / 3) - 1 commas. */
  lemma SeparatorCount(s: string)
    requires SEPARATOR !in s && |s| > 0
    ensures Count(Join(Groups(s), SEPARATOR), SEPARATOR) == (|s| + 2) / 3 - 1
  {
    GroupsAreCommaFree(s, SEPARATOR);
    GroupsSizes(s);
    EraseJoin(Groups(s), SEPARATOR);
  }

  /** Up to three characters come back unchanged. */
  lemma ShortTextUnchanged(s: string)
    requires |s| <= 3
    ensures Join(Groups(s), SEPARATOR) == s
  {
  }

  /** Two groups, joined: the first, a comma, the second. */
  lemma JoinTwo(a: string, b: string)
    ensures Join([a, b], SEPARATOR) == a + [SEPARATOR] + b
  {
    assert [a, b][..1] == [a];
  }

  /** A minus sign is grouped like a digit: -123 comes out as "-,123". */
  lemma SignIsGrouped()
    ensures Join(Groups("-123"), SEPARATOR) == "-,123"
  {
    var s := "-123";
    assert s[..1] == "-" && s[1..] == "123";
    assert Groups(s) == ["-", "123"];
    JoinTwo("-", "123");
  }

  /** A decimal point is grouped like a digit: 1234.5 comes out as "123,4.5". */
  lemma PointIsGrouped()
    ensures Join(Groups("1234.5"), SEPARATOR) == "123,4.5"
  {
    var s := "1234.5";
    assert s[..3] == "123" && s[3..] == "4.5";
    assert Groups(s) == ["123", "4.5"];
    JoinTwo("123", "4.5");
  }
}
