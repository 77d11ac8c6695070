/** The page types and cities a race-day page is requested for, and the URL
    of that page on the racing authority's site. */
module RaceUrl {
  import opened Results
  import opened Digits
  import opened PyFormat
  import opened Calendar

  /** Fixture pages list the entries of coming races, result pages the outcomes. */
  datatype PageType = Fixture | Result

  /** A member of the city enumeration: its name and its numeric code on the site. */
  datatype City = City(name: string, code: nat)

  /** The race-type keyword of each scraper variant. */
  function Keyword(pageType: PageType): (r: string)
    ensures BraceFree(r) && |r| > 0
  {
    match pageType
    case Fixture => "GunlukYarisProgrami"
    case Result => "GunlukYarisSonuclari"
  }

  /** The fixed parts of the URL, in order. */
  const Host: string := "http://www.tjk.org/TR/YarisSever/Info/Sehir/"
  const CityParam: string := "?SehirId="
  const DateParam: string := "&QueryParameter_Tarih="
  const NameParam: string := "&SehirAdi="

  /** The template the scraper formats: `{0}` race type, `{1}` city code,
      `{2}` date, `{3}` city name. The scraper writes it as one literal,
      `.../Sehir/{0}?SehirId={1}&QueryParameter_Tarih={2}&SehirAdi={3}`. */
  const UrlTemplate: string :=
    Host + ("{0}" + (CityParam + ("{1}" + (DateParam + ("{2}" + (NameParam + "{3}"))))))

  /** The fixed text around the fields holds no brace. Stated once here so that
      the proofs that format the template do not re-derive it from the literals. */
  lemma FixedPartsBraceFree()
    ensures BraceFree(Host) && BraceFree(CityParam) && BraceFree(DateParam) && BraceFree(NameParam)
  {
    HostBraceFree();
    ParamsBraceFree();
  }

  /** A fact about a literal, split off to keep its proof small. */
  lemma HostBraceFree()
    ensures BraceFree(Host)
  {
  }

  /** A fact about literals, split off to keep its proof small. */
  lemma ParamsBraceFree()
    ensures BraceFree(CityParam) && BraceFree(DateParam) && BraceFree(NameParam)
  {
  }

  /** The URL of the page: the template is formatted once with the race type,
      the city code, a fresh `{0}` placeholder and the city name, and the
      result is formatted again with the date. */
  function BuildUrl(pageType: PageType, city: City, date: Date): Result<string, FormatError> {
    var withCity :- Format(UrlTemplate, [Keyword(pageType), ToDecimal(city.code), "{0}", city.name]);
    Format(withCity, [UrlDate(date)])
  }

  /** The URL every fetch goes to. */
  function ExpectedUrl(pageType: PageType, city: City, date: Date): string {
    Host + (Keyword(pageType) + (CityParam + (ToDecimal(city.code) + (DateParam + (UrlDate(date) + (NameParam + city.name))))))
  }

  lemma DecimalBraceFree(n: nat)
    ensures BraceFree(ToDecimal(n))
  {
    var s := ToDecimal(n);
    assert forall i :: 0 <= i < |s| ==> IsDigit(s[i]);
  }

  /** The first formatting pass fills the race type, the city code and the city
      name and leaves a `{0}` where the date goes. */
  lemma FirstPass(keyword: string, code: string, name: string)
    ensures Format(UrlTemplate, [keyword, code, "{0}", name])
            == Ok(Host + (keyword + (CityParam + (code + (DateParam + ("{0}" + (NameParam + name)))))))
  {
    var args := [keyword, code, "{0}", name];
    var t2 := "{2}" + (NameParam + "{3}");
    var d2 := DateParam + t2;
    var t1 := "{1}" + d2;
    var c1 := CityParam + t1;
    var t0 := "{0}" + c1;
    assert UrlTemplate == Host + t0;
    FixedPartsBraceFree();
    FirstPassTail(args);
    FormatBraceFreePrefix(DateParam, t2, args);
    FormatDigitField(t1, 1, args);
    assert t1[3..] == d2;
    FormatBraceFreePrefix(CityParam, t1, args);
    FormatDigitField(t0, 0, args);
    assert t0[3..] == c1;
    FormatBraceFreePrefix(Host, t0, args);
  }

  /** The last two fields of the first pass: `{2}` becomes `{0}` again and `{3}` the city name. */
  lemma FirstPassTail(args: seq<string>)
    requires |args| == 4 && args[2] == "{0}"
    ensures Format("{2}" + (NameParam + "{3}"), args) == Ok("{0}" + (NameParam + args[3]))
  {
    var t3 := "{3}";
    var n3 := NameParam + t3;
    var t2 := "{2}" + n3;
    FixedPartsBraceFree();
    FormatDigitField(t3, 3, args);
    assert t3[3..] == [];
    assert args[3] + [] == args[3];
    FormatBraceFreePrefix(NameParam, t3, args);
    FormatDigitField(t2, 2, args);
    assert t2[3..] == n3;
  }

  /** The second pass puts the date where the first pass left `{0}`; the text
      around it passes through unchanged as long as it holds no braces. */
  lemma SecondPass(keyword: string, code: string, date: string, name: string)
    requires BraceFree(keyword) && BraceFree(code) && BraceFree(name)
    ensures Format(Host + (keyword + (CityParam + (code + (DateParam + ("{0}" + (NameParam + name)))))), [date])
            == Ok(Host + (keyword + (CityParam + (code + (DateParam + (date + (NameParam + name)))))))
  {
    var args := [date];
    FixedPartsBraceFree();
    var tail := NameParam + name;
    assert BraceFree(tail);
    var field := "{0}" + tail;
    FormatDigitField(field, 0, args);
    assert field[3..] == tail;
    var t4 := DateParam + field;
    FormatBraceFreePrefix(DateParam, field, args);
    var t3 := code + t4;
    FormatBraceFreePrefix(code, t4, args);
    var t2 := CityParam + t3;
    FormatBraceFreePrefix(CityParam, t3, args);
    var t1 := keyword + t2;
    FormatBraceFreePrefix(keyword, t2, args);
    FormatBraceFreePrefix(Host, t1, args);
  }

  /** The URL is exactly the host, the race-type keyword, `?SehirId=` and the
      city code, `&QueryParameter_Tarih=` and the date, `&SehirAdi=` and the
      city name, provided the city name holds no braces (enumeration member
      names never do). */
  lemma BuildUrlShape(pageType: PageType, city: City, date: Date)
    requires BraceFree(city.name)
    ensures BuildUrl(pageType, city, date) == Ok(ExpectedUrl(pageType, city, date))
  {
    DecimalBraceFree(city.code);
    FirstPass(Keyword(pageType), ToDecimal(city.code), city.name);
    SecondPass(Keyword(pageType), ToDecimal(city.code), UrlDate(date), city.name);
  }
}
