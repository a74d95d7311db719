/** The search box filter of the pantry page and the capitalised display
    name of each card. Case conversion is the ASCII case map: only the
    letters 'A'..'Z' and 'a'..'z' change case. */
module Search {
  import opened Inventory

  /** ASCII lower-case of one character. */
  function LowerChar(c: char): char
  {
    if 'A' <= c <= 'Z' then (c as int + 32) as char else c
  }

  /** ASCII upper-case of one character. */
  function UpperChar(c: char): char
  {
    if 'a' <= c <= 'z' then (c as int - 32) as char else c
  }

  /** `String.prototype.toLowerCase`, restricted to ASCII letters. */
  function Lower(s: string): (r: string)
    ensures |r| == |s|
    ensures forall i :: 0 <= i < |s| ==> r[i] == LowerChar(s[i])
    ensures forall i :: 0 <= i < |r| ==> !('A' <= r[i] <= 'Z')
  {
    if s == [] then [] else [LowerChar(s[0])] + Lower(s[1..])
  }

  /** Lower-casing twice is lower-casing once. */
  lemma LowerIdempotent(s: string)
    ensures Lower(Lower(s)) == Lower(s)
  {
  }

  /** `hay.includes(needle)`: `needle` starts at some position of `hay`. */
  function Includes(hay: string, needle: string): bool
    decreases |hay|
  {
    needle <= hay || (hay != [] && Includes(hay[1..], needle))
  }

  /** `needle` occurs in `hay` starting at index `k`. */
  predicate OccursAt(hay: string, needle: string, k: int)
  {
    0 <= k && k + |needle| <= |hay| && hay[k..k + |needle|] == needle
  }

  /** Includes agrees with the positional definition of a substring. */
  lemma {:induction false} IncludesIffOccurs(hay: string, needle: string)
    ensures Includes(hay, needle) <==> exists k :: OccursAt(hay, needle, k)
    decreases |hay|
  {
    if needle <= hay {
      assert OccursAt(hay, needle, 0);
    } else if hay != [] {
      IncludesIffOccurs(hay[1..], needle);
      if k :| OccursAt(hay[1..], needle, k) {
        assert hay[k + 1..k + 1 + |needle|] == hay[1..][k..k + |needle|];
        assert OccursAt(hay, needle, k + 1);
      }
      if k :| OccursAt(hay, needle, k) {
        assert k != 0;
        assert hay[1..][k - 1..k - 1 + |needle|] == hay[k..k + |needle|];
        assert OccursAt(hay[1..], needle, k - 1);
      }
    }
  }

  /** The search predicate of the list: the lower-cased name contains the
      lower-cased search term. */
  function Matches(name: string, term: string): bool
  {
    Includes(Lower(name), Lower(term))
  }

  /** The list rendered for a search term: the records whose name matches,
      in list order. */
  function Filter(items: seq<Item>, term: string): (r: seq<Item>)
    ensures |r| <= |items|
    ensures forall it :: it in r <==> it in items && Matches(it.name, term)
  {
    if items == [] then []
    else if Matches(items[0].name, term) then [items[0]] + Filter(items[1..], term)
    else Filter(items[1..], term)
  }

  /** `a` is `b` with some records dropped, order kept. */
  predicate IsSubsequence(a: seq<Item>, b: seq<Item>)
    decreases |b|
  {
    a == [] || (b != [] && ((a[0] == b[0] && IsSubsequence(a[1..], b[1..])) || IsSubsequence(a, b[1..])))
  }

  /** The filtered list is a subsequence of the inventory list. */
  lemma {:induction false} FilterSubsequence(items: seq<Item>, term: string)
    ensures IsSubsequence(Filter(items, term), items)
  {
    if items != [] {
      FilterSubsequence(items[1..], term);
      var r := Filter(items, term);
      if Matches(items[0].name, term) {
        assert r[0] == items[0] && r[1..] == Filter(items[1..], term);
      }
    }
  }

  /** Filtering distributes over concatenation: each record is kept or
      dropped on its own, and kept records stay in order. */
  lemma {:induction false} FilterConcat(a: seq<Item>, b: seq<Item>, term: string)
    ensures Filter(a + b, term) == Filter(a, term) + Filter(b, term)
  {
    if a == [] {
      assert a + b == b;
    } else {
      assert (a + b)[0] == a[0];
      assert (a + b)[1..] == a[1..] + b;
      FilterConcat(a[1..], b, term);
    }
  }

  /** The empty search term keeps every record. */
  lemma {:induction false} FilterEmptyTerm(items: seq<Item>)
    ensures Filter(items, "") == items
  {
    if items != [] {
      assert Matches(items[0].name, "");
      FilterEmptyTerm(items[1..]);
    }
  }

  /** Search terms that differ only in ASCII case select the same records. */
  lemma {:induction false} FilterCaseInsensitive(items: seq<Item>, t1: string, t2: string)
    requires Lower(t1) == Lower(t2)
    ensures Filter(items, t1) == Filter(items, t2)
  {
    if items != [] {
      FilterCaseInsensitive(items[1..], t1, t2);
    }
  }

  /** `name.charAt(0).toUpperCase() + name.slice(1)`: the card title. */
  function Capitalize(name: string): (r: string)
    ensures |r| == |name|
    ensures forall i :: 0 < i < |name| ==> r[i] == name[i]
    ensures |name| > 0 ==> !('a' <= r[0] <= 'z')
    ensures Lower(r) == Lower(name)
  {
    if name == [] then [] else [UpperChar(name[0])] + name[1..]
  }

  /** Capitalising a title again leaves it unchanged. */
  lemma CapitalizeIdempotent(name: string)
    ensures Capitalize(Capitalize(name)) == Capitalize(name)
  {
  }

  /** A record matches a search term exactly when its card title does. */
  lemma MatchesTitle(name: string, term: string)
    ensures Matches(Capitalize(name), term) == Matches(name, term)
  {
  }

  /** Search of "ri" shows "Rice". */
  lemma RiceExample()
    ensures Filter([Item("Rice", 1)], "ri") == [Item("Rice", 1)]
  {
    assert Lower("Rice") == "rice";
    assert Lower("ri") == "ri";
  }

  lemma BananaMatchesAn()
    ensures Matches("Banana", "an")
  {
    assert Lower("an") == "an";
    assert Lower("Banana") == "banana";
    assert "banana"[1..] == "anana";
  }

  lemma AppleMissesAn()
    ensures !Matches("apple", "an")
  {
    assert Lower("an") == "an";
    assert Lower("apple") == "apple";
    assert "e"[1..] == "";
    assert "le"[1..] == "e";
    assert "an"[0] != "le"[0];
    assert "ple"[1..] == "le";
    assert "an"[0] != "ple"[0];
    assert "pple"[1..] == "ple";
    assert "an"[0] != "pple"[0];
    assert "apple"[1..] == "pple";
    assert "an"[1] != "apple"[1];
  }

  /** With "Banana" and "apple" stored, the term "an" shows only "Banana". */
  lemma BananaExample()
    ensures Filter([Item("Banana", 1), Item("apple", 1)], "an") == [Item("Banana", 1)]
  {
    BananaMatchesAn();
    AppleMissesAn();
    var banana, apple := Item("Banana", 1), Item("apple", 1);
    assert Filter([apple], "an") == [];
    assert [banana, apple][1..] == [apple];
  }
}
