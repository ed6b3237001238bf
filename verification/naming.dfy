/** How the script names a movie's collection after its title, and how it turns a
    collection name back into a heading when showing query results. */
module Naming {
  import opened Text

  const CollectionPrefix := "movie_"

  /** What one title character becomes in the collection name. */
  function KeyChar(c: char): char {
    if c == ' ' then '_' else ToLower(c)
  }

  /** The collection name for a movie title: lower-cased, each space replaced by
      an underscore, and prefixed with `movie_`. */
  function CollectionName(title: string): (name: string)
    ensures StartsWith(name, CollectionPrefix)
    ensures ' ' !in name
  {
    CollectionPrefix + ReplaceChar(Lower(title), ' ', '_')
  }

  /** Titles that no collection name can tell apart: same length, and equal
      character by character once case is ignored and spaces count as underscores. */
  predicate SameKey(a: string, b: string) {
    |a| == |b| && forall i :: 0 <= i < |a| ==> KeyChar(a[i]) == KeyChar(b[i])
  }

  lemma CollectionNameChars(title: string)
    requires IsAscii(title)
    ensures |CollectionName(title)| == |CollectionPrefix| + |title|
    ensures forall i :: 0 <= i < |title| ==>
      CollectionName(title)[|CollectionPrefix| + i] == KeyChar(title[i])
  {
  }

  /** For an ASCII title the name is six characters longer than the title,
      because lower-casing and the space replacement are one-for-one. */
  lemma CollectionNameLength(title: string)
    requires IsAscii(title)
    ensures |CollectionName(title)| == 6 + |title|
  {
    CollectionNameChars(title);
  }

  /** Two ASCII titles share a collection exactly when they differ only in letter
      case or in spaces against underscores. */
  lemma CollectionNameCollision(a: string, b: string)
    requires IsAscii(a) && IsAscii(b)
    ensures CollectionName(a) == CollectionName(b) <==> SameKey(a, b)
  {
    CollectionNameChars(a);
    CollectionNameChars(b);
    if SameKey(a, b) {
      assert CollectionName(a) == CollectionName(b);
    }
    if CollectionName(a) == CollectionName(b) {
      forall i | 0 <= i < |a|
        ensures KeyChar(a[i]) == KeyChar(b[i])
      {
        assert CollectionName(a)[|CollectionPrefix| + i] == CollectionName(b)[|CollectionPrefix| + i];
      }
    }
  }

  /** The heading shown above a collection's results: every `movie_` removed,
      each remaining underscore shown as a space, then title-cased. */
  function Heading(name: string): (heading: string)
    ensures '_' !in heading
  {
    var shown := ReplaceChar(RemoveAll(name, CollectionPrefix), '_', ' ');
    var heading := Title(shown);
    assert forall i :: 0 <= i < |heading| ==> heading[i] != '_' by {
      forall i | 0 <= i < |heading|
        ensures heading[i] != '_'
      {
        assert shown[i] != '_';
        if i == 0 {
          assert heading[0] == ToUpper(shown[0]);
        } else {
          assert heading[i] == if IsCased(shown[i - 1]) then ToLower(shown[i]) else ToUpper(shown[i]);
        }
      }
    }
    heading
  }

  /** The body of a collection name: what follows `movie_`. */
  function NameBody(title: string): string {
    ReplaceChar(Lower(title), ' ', '_')
  }

  lemma {:induction false} BodyShownAsTitle(title: string)
    requires '_' !in title
    ensures Title(ReplaceChar(NameBody(title), '_', ' ')) == Title(title)
  {
    forall i | 0 <= i < |title|
      ensures Lower(title)[i] != '_'
    {
      assert title[i] != '_';
    }
    ReplaceCharInverse(Lower(title), ' ', '_');
    TitleOfLower(title, false);
  }

  lemma TestFilmName()
    ensures CollectionName("Test Film") == "movie_test_film"
  {
  }

  /** An ASCII title that is already title-cased, has no underscore, and whose
      name body does not itself contain `movie_`, comes back unchanged as the
      heading of its own collection. */
  lemma HeadingRoundTrip(title: string)
    requires IsAscii(title)
    requires '_' !in title
    requires Title(title) == title
    requires !Occurs(CollectionPrefix, NameBody(title))
    ensures Heading(CollectionName(title)) == title
  {
    var name := CollectionName(title);
    assert name[|CollectionPrefix|..] == NameBody(title);
    assert RemoveAll(name, CollectionPrefix) == NameBody(title);
    BodyShownAsTitle(title);
  }

  /** A title containing the word Movie loses it from its heading: the name of
      "Movie Night" is `movie_movie_night`, shown as "Night". */
  lemma HeadingDropsInnerPrefix()
    ensures CollectionName("Movie Night") == "movie_movie_night"
    ensures Heading("movie_movie_night") == "Night"
  {
    MovieNightName();
    MovieNightHeading();
  }

  lemma MovieNightHeading()
    ensures Heading("movie_movie_night") == "Night"
  {
    MovieNightBody();
    NightShown();
    NightTitle();
  }

  lemma NightShown()
    ensures ReplaceChar("night", '_', ' ') == "night"
  {
    assert forall i :: 0 <= i < 5 ==> "night"[i] != '_';
  }

  lemma MovieNightName()
    ensures CollectionName("Movie Night") == "movie_movie_night"
  {
  }

  lemma MovieNightBody()
    ensures RemoveAll("movie_movie_night", CollectionPrefix) == "night"
  {
    var name := "movie_movie_night";
    assert StartsWith(name, CollectionPrefix);
    assert name[|CollectionPrefix|..] == "movie_night";
    assert StartsWith("movie_night", CollectionPrefix);
    assert "movie_night"[|CollectionPrefix|..] == "night";
    ShortStringHasNoOccurrence(CollectionPrefix, "night");
  }

  lemma NightTitle()
    ensures Title("night") == "Night"
  {
  }

  /** `name.removeprefix('movie_')` */
  function StripCollectionPrefix(name: string): (body: string)
    ensures StartsWith(name, CollectionPrefix) ==> name == CollectionPrefix + body
    ensures !StartsWith(name, CollectionPrefix) ==> body == name
  {
    if StartsWith(name, CollectionPrefix) then name[|CollectionPrefix|..] else name
  }

  /** The heading with only the leading `movie_` removed. */
  function IntendedHeading(name: string): (heading: string)
    ensures '_' !in heading
  {
    var shown := ReplaceChar(StripCollectionPrefix(name), '_', ' ');
    var heading := Title(shown);
    assert forall i :: 0 <= i < |heading| ==> heading[i] != '_' by {
      forall i | 0 <= i < |heading|
        ensures heading[i] != '_'
      {
        assert shown[i] != '_';
        if i == 0 {
          assert heading[0] == ToUpper(shown[0]);
        } else {
          assert heading[i] == if IsCased(shown[i - 1]) then ToLower(shown[i]) else ToUpper(shown[i]);
        }
      }
    }
    heading
  }

  /** Every title-cased ASCII title without underscores comes back unchanged as
      the heading of its own collection, "Movie Night" included. */
  lemma IntendedHeadingRoundTrip(title: string)
    requires IsAscii(title)
    requires '_' !in title
    requires Title(title) == title
    ensures IntendedHeading(CollectionName(title)) == title
  {
    BodyShownAsTitle(title);
  }
}
