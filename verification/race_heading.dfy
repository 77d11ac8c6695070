/** The race heading (`h3.race-config`) as the scraper reads it: the text after
    the last comma holds the distance and, after a blank line, the track type. */
module RaceHeading {
  import opened Results
  import opened Text
  import opened Digits

  /** The real carriage-return/line-feed pair, twice: the blank line between
      the distance and the track type. */
  const Crlf2: string := "\r\n\r\n"

  /** A backslash followed by the letter `r`: two characters of text, not a
      carriage return. The track type is cut at the first of these. */
  const LiteralCr: string := "\\r"

  /** The two race-level values a heading yields, before the distance is read as a number. */
  datatype RaceConfig = RaceConfig(distanceText: string, trackType: string)

  /** `s.replace(" ", "")`: the pieces between the spaces, concatenated in order. */
  function RemoveSpaces(s: string): (r: string)
    ensures r == Join(Split(s, " "), "")
    ensures ' ' !in r
    ensures forall x :: x != ' ' ==> multiset(r)[x] == multiset(s)[x]
    ensures ' ' !in s ==> r == s
  {
    ReplaceCharSplitJoin(s, ' ', "");
    ReplaceChar(s, ' ', "")
  }

  /** The distance text and track type of a heading: the text after the last
      comma is split at the blank lines; the first piece without its spaces is
      the distance, the second piece up to the first literal backslash-r is the
      track type. There is no track type (Python raises `IndexError`) when no
      blank line follows the last comma. */
  function ParseRaceConfig(heading: string): (r: Option<RaceConfig>)
    ensures r.Some? <==> Contains(Last(heading, ','), Crlf2)
    ensures r.Some? ==> ' ' !in r.value.distanceText
    ensures r.Some? ==> !Contains(r.value.trackType, LiteralCr)
  {
    var tail := Last(heading, ',');
    var parts := Split(tail, Crlf2);
    var distanceText := RemoveSpaces(parts[0]);
    SplitSingle(tail, Crlf2);
    if |parts| < 2 then None
    else Some(RaceConfig(distanceText, First(parts[1], LiteralCr)))
  }

  /** A heading as a race page lays it out: leading text, a comma, the distance,
      a blank line, the track type and a trailer. */
  function Render(lead: string, distance: string, trackType: string, trailer: string): string {
    lead + "," + (distance + (Crlf2 + (trackType + trailer)))
  }

  /** The parts of a heading that parsing can separate again: no comma after the
      lead, no carriage return in the distance or the track type, no backslash in
      the track type, and a trailer that is empty or starts with a literal backslash-r. */
  predicate Separable(distance: string, trackType: string, trailer: string) {
    && ',' !in distance && ',' !in trackType && ',' !in trailer
    && '\r' !in distance && '\r' !in trackType && '\\' !in trackType
    && (trailer == [] || LiteralCr <= trailer)
  }

  /** Parsing a laid-out heading recovers the distance without its spaces and the track type. */
  lemma ParseRender(lead: string, distance: string, trackType: string, trailer: string)
    requires Separable(distance, trackType, trailer)
    ensures ParseRaceConfig(Render(lead, distance, trackType, trailer))
            == Some(RaceConfig(RemoveSpaces(distance), trackType))
  {
    ParseAfterBlankLine(lead, distance, trackType + trailer);
    TrackTypeOf(trackType, trailer);
  }

  /** Whatever follows the first blank line after the last comma is cut at the
      next blank line and then at the first literal backslash-r. */
  lemma ParseAfterBlankLine(lead: string, distance: string, rest: string)
    requires ',' !in distance && ',' !in rest && '\r' !in distance
    ensures ParseRaceConfig(lead + "," + (distance + (Crlf2 + rest)))
            == Some(RaceConfig(RemoveSpaces(distance), First(First(rest, Crlf2), LiteralCr)))
  {
    var body := distance + (Crlf2 + rest);
    var s := lead + "," + body;
    assert s == (lead + ",") + body;
    assert s[|s| - |body|..] == body;
    assert s[|s| - |body| - 1] == ',';
    LastCharUnique(s, ',', body);
    assert body == distance + Crlf2 + rest;
    NoOccurrenceBefore(body, Crlf2, |distance|);
    SplitAtFirst(distance, Crlf2, rest);
  }

  /** A heading without a comma is read whole: the distance is the text before
      the first blank line, as `split(",")[-1]` returns the entire heading. */
  lemma ParseNoComma(distance: string, rest: string)
    requires ',' !in distance && ',' !in rest && '\r' !in distance
    ensures ParseRaceConfig(distance + (Crlf2 + rest))
            == Some(RaceConfig(RemoveSpaces(distance), First(First(rest, Crlf2), LiteralCr)))
  {
    var s := distance + (Crlf2 + rest);
    assert ',' !in s by {
      assert forall j :: 0 <= j < |s| ==> s[j] in distance || s[j] in Crlf2 || s[j] in rest;
    }
    assert IsSuffix(s, s);
    LastCharUnique(s, ',', s);
    assert s == distance + Crlf2 + rest;
    NoOccurrenceBefore(s, Crlf2, |distance|);
    SplitAtFirst(distance, Crlf2, rest);
  }

  /** A real carriage return is not where the track type ends: when a single
      line break follows the track type, the break and everything after it stay
      in the track type. */
  lemma CarriageReturnKept(lead: string, distance: string, trackType: string, more: string)
    requires ',' !in distance && '\r' !in distance
    requires ',' !in trackType && '\r' !in trackType && '\\' !in trackType
    requires ',' !in more && '\r' !in more && '\\' !in more
    ensures ParseRaceConfig(Render(lead, distance, trackType, "\r\n" + more))
            == Some(RaceConfig(RemoveSpaces(distance), trackType + "\r\n" + more))
  {
    var x := trackType + "\r\n" + more;
    assert trackType + ("\r\n" + more) == x;
    assert ',' !in x by {
      assert forall j :: 0 <= j < |x| ==> x[j] in trackType || x[j] in "\r\n" || x[j] in more;
    }
    ParseAfterBlankLine(lead, distance, x);
    SingleBreakKept(trackType, more);
  }

  /** A single line break and the text after it survive both cuts. */
  lemma SingleBreakKept(trackType: string, more: string)
    requires '\r' !in trackType && '\\' !in trackType
    requires '\r' !in more && '\\' !in more
    ensures First(First(trackType + "\r\n" + more, Crlf2), LiteralCr) == trackType + "\r\n" + more
  {
    var x := trackType + "\r\n" + more;
    var n := |trackType|;
    assert forall j :: 0 <= j < |x| && j != n ==> x[j] != '\r' && x[j] != '\\' by {
      forall j | 0 <= j < |x| && j != n
        ensures x[j] != '\r' && x[j] != '\\'
      {
        if j < n {
          assert x[j] == trackType[j];
        } else if j > n + 1 {
          assert x[j] == more[j - n - 2];
        }
      }
    }
    forall j: nat | j < |x|
      ensures !OccursAt(x, Crlf2, j)
    {
      if j + 4 <= |x| {
        if j == n {
          assert x[j..j + 4][2] == x[n + 2] != Crlf2[2];
        } else {
          assert x[j..j + 4][0] == x[j] != Crlf2[0];
        }
      }
    }
    FirstUnique(x, Crlf2, x);
    assert x[n] == '\r';
    NoOccurrenceBefore(x, LiteralCr, |x|);
    FirstUnique(x, LiteralCr, x);
  }

  /** The track type is what precedes the trailer. */
  lemma TrackTypeOf(trackType: string, trailer: string)
    requires '\r' !in trackType && '\\' !in trackType
    requires trailer == [] || LiteralCr <= trailer
    ensures First(First(trackType + trailer, Crlf2), LiteralCr) == trackType
  {
    var x := trackType + trailer;
    var n := if trailer == [] then |x| else |trackType| + 2;
    assert forall j :: 0 <= j < n ==> x[j] != '\r' by {
      forall j | 0 <= j < n
        ensures x[j] != '\r'
      {
        if j < |trackType| {
          assert x[j] == trackType[j];
        } else {
          assert x[j] == trailer[j - |trackType|] == LiteralCr[j - |trackType|];
        }
      }
    }
    NoOccurrenceBefore(x, Crlf2, n);
    var p := First(x, Crlf2);
    assert |p| >= n;
    assert p[..|trackType|] == trackType;
    NoOccurrenceBefore(p, LiteralCr, |trackType|);
    if trailer != [] {
      assert p[|trackType|..|trackType| + 2] == LiteralCr;
    }
    FirstUnique(p, LiteralCr, trackType);
  }

  /** `n` spaces. */
  function Spaces(n: nat): (r: string)
    ensures |r| == n && forall i :: 0 <= i < n ==> r[i] == ' '
  {
    seq(n, i => ' ')
  }

  /** A distance written as a numeral behind any number of spaces reads back as that number. */
  lemma DistanceRoundTrip(indent: nat, n: nat)
    ensures RemoveSpaces(Spaces(indent) + ToDecimal(n)) == ToDecimal(n)
    ensures ParseNat(RemoveSpaces(Spaces(indent) + ToDecimal(n))) == Some(n)
  {
    var sp := Spaces(indent);
    var digits := ToDecimal(n);
    ReplaceCharAppend(sp, digits, ' ', "");
    assert ReplaceChar(sp, ' ', "") == [] by {
      assert multiset(ReplaceChar(sp, ' ', "")) == multiset{};
    }
    assert ' ' !in digits by {
      assert forall i :: 0 <= i < |digits| ==> IsDigit(digits[i]);
    }
    assert [] + digits == digits;
    ParseDecimalRoundTrip(n);
  }
}
