/** The detail-page extraction rules of `parse_anime_page` (anime.py:62-96,
    detail_data.py:39-78). The selectors themselves are opaque: a parsed page
    is represented by what each rule's selector matches. */
module Selectors {
  import opened Normalize

  /** One extraction rule per selector of `parse_anime_page`, in source order. */
  datatype Rule =
    | Description | CharacterNames | CharacterTypes | VoiceActorNames | Languages
    | CharacterImages | VoiceActorImages | Statuses | Numbers
    | Synonyms | JapaneseTitle | EnglishTitle | AnimeType | Episodes | Status
    | Aired | Premiered | Broadcast | Producers | Licensors | Studios | Source
    | Genres | Themes | Duration | Rating | Score | Ranked | Popularity
    | Members | Favorites

  /** The three rules read with `.get()` (first match or `None`); every other
      rule is read with `.getall()` (the list of all matches). */
  predicate FirstMatchOnly(rule: Rule)
  {
    rule == AnimeType || rule == Premiered || rule == Score
  }

  /** A fetched detail response: either markup whose selectors produced the
      given matches (a rule absent from the map matched nothing), or a body the
      selectors cannot be applied to, on which `response.css`/`response.xpath`
      raise. */
  datatype Body = Markup(matches: map<Rule, seq<string>>) | NotMarkup

  /** What the rule's selector call returns on a page. */
  function Select(matches: map<Rule, seq<string>>, rule: Rule): (v: Raw)
    ensures FirstMatchOnly(rule) ==> !v.Lst?
    ensures !FirstMatchOnly(rule) ==> v.Lst? && v.items == (if rule in matches then matches[rule] else [])
    ensures v.Str? ==> rule in matches && |matches[rule]| > 0 && v.s == matches[rule][0]
    ensures v.Absent? <==> FirstMatchOnly(rule) && (rule !in matches || matches[rule] == [])
  {
    var found := if rule in matches then matches[rule] else [];
    if FirstMatchOnly(rule) then
      if found == [] then Absent else Str(found[0])
    else
      Lst(found)
  }
}
