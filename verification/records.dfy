/** The records the two spiders yield from a detail page (anime.py:99-134,
    detail_data.py:80-112): fixed-key dictionaries whose values are the
    cleaned results of the extraction rules. */
module Records {
  import opened Wrappers
  import opened Normalize
  import Selectors

  /** What a dictionary key holds: one of the three values copied from the
      listing row (fresh spider only), or the cleaned result of one detail
      rule. The spiders spell some of these keys differently; see
      `FreshName` and `ResumeName`. */
  datatype Key = Title | ImageUrl | ListingScore | Detail(rule: Selectors.Rule)

  /** The Python key under which the resume spider stores a rule's value
      (detail_data.py:81-111). */
  function ResumeName(rule: Selectors.Rule): string
  {
    match rule
    case Description => "description"
    case CharacterNames => "character_names"
    case CharacterTypes => "character_types"
    case VoiceActorNames => "voice_actor_names"
    case Languages => "languages"
    case CharacterImages => "character_images"
    case VoiceActorImages => "voice_actor_images"
    case Statuses => "statuses"
    case Numbers => "numbers"
    case Synonyms => "synonyms"
    case JapaneseTitle => "japanese_title"
    case EnglishTitle => "english_title"
    case AnimeType => "anime_type"
    case Episodes => "episodes"
    case Status => "status"
    case Aired => "aired"
    case Premiered => "premiered"
    case Broadcast => "broadcast"
    case Producers => "producers"
    case Licensors => "licensors"
    case Studios => "studios"
    case Source => "source"
    case Genres => "genres"
    case Themes => "themes"
    case Duration => "duration"
    case Rating => "rating"
    case Score => "score"
    case Ranked => "ranked"
    case Popularity => "popularity"
    case Members => "members"
    case Favorites => "favorites"
  }

  /** The Python key under which the fresh spider stores a value
      (anime.py:100-133): the resume spelling, except that the page's type
      goes under `type` and the page's score under `score_detail`, `score`
      holding the listing's score instead. */
  function FreshName(k: Key): string
  {
    match k
    case Title => "title"
    case ImageUrl => "image_url"
    case ListingScore => "score"
    case Detail(AnimeType) => "type"
    case Detail(Score) => "score_detail"
    case Detail(rule) => ResumeName(rule)
  }

  /** The rule whose value the resume spider stores under `name`, if any,
      looked up among the names of the same length. This parser exists to
      prove the key names distinct (`ResumeNamesAreDistinct`); branching on
      the length first keeps each proof to a handful of string comparisons. */
  function ResumeRuleOf(name: string): Option<Selectors.Rule>
  {
    match |name|
    case 5 =>
      (match name
      case "aired" => Some(Selectors.Aired)
      case "score" => Some(Selectors.Score)
      case _ => None)
    case 6 =>
      (match name
      case "status" => Some(Selectors.Status)
      case "source" => Some(Selectors.Source)
      case "genres" => Some(Selectors.Genres)
      case "themes" => Some(Selectors.Themes)
      case "rating" => Some(Selectors.Rating)
      case "ranked" => Some(Selectors.Ranked)
      case _ => None)
    case 7 =>
      (match name
      case "numbers" => Some(Selectors.Numbers)
      case "studios" => Some(Selectors.Studios)
      case "members" => Some(Selectors.Members)
      case _ => None)
    case 8 =>
      (match name
      case "statuses" => Some(Selectors.Statuses)
      case "synonyms" => Some(Selectors.Synonyms)
      case "episodes" => Some(Selectors.Episodes)
      case "duration" => Some(Selectors.Duration)
      case _ => None)
    case 9 =>
      (match name
      case "languages" => Some(Selectors.Languages)
      case "premiered" => Some(Selectors.Premiered)
      case "broadcast" => Some(Selectors.Broadcast)
      case "producers" => Some(Selectors.Producers)
      case "licensors" => Some(Selectors.Licensors)
      case "favorites" => Some(Selectors.Favorites)
      case _ => None)
    case 10 =>
      (match name
      case "anime_type" => Some(Selectors.AnimeType)
      case "popularity" => Some(Selectors.Popularity)
      case _ => None)
    case 11 =>
      (match name
      case "description" => Some(Selectors.Description)
      case _ => None)
    case 13 =>
      (match name
      case "english_title" => Some(Selectors.EnglishTitle)
      case _ => None)
    case 14 =>
      (match name
      case "japanese_title" => Some(Selectors.JapaneseTitle)
      case _ => None)
    case 15 =>
      (match name
      case "character_names" => Some(Selectors.CharacterNames)
      case "character_types" => Some(Selectors.CharacterTypes)
      case _ => None)
    case 16 =>
      (match name
      case "character_images" => Some(Selectors.CharacterImages)
      case _ => None)
    case 17 =>
      (match name
      case "voice_actor_names" => Some(Selectors.VoiceActorNames)
      case _ => None)
    case 18 =>
      (match name
      case "voice_actor_images" => Some(Selectors.VoiceActorImages)
      case _ => None)
    case _ => None
  }

  /** The key the fresh spider stores under `name`, if any. */
  function FreshKeyOf(name: string): Option<Key>
  {
    match ResumeRuleOf(name)
    case Some(rule) => if rule != Selectors.AnimeType && rule != Selectors.Score then Some(Detail(rule)) else ListingKeyOf(name)
    case None => ListingKeyOf(name)
  }

  /** The keys the fresh spider spells its own way. */
  function ListingKeyOf(name: string): Option<Key>
  {
    match name
    case "title" => Some(Title)
    case "image_url" => Some(ImageUrl)
    case "score" => Some(ListingScore)
    case "type" => Some(Detail(Selectors.AnimeType))
    case "score_detail" => Some(Detail(Selectors.Score))
    case _ => None
  }

  /** Each resume key name reads back as its rule. */
  lemma ResumeNameRoundTrip(rule: Selectors.Rule)
    ensures ResumeRuleOf(ResumeName(rule)) == Some(rule)
  {
    match rule
    case Description => assert ResumeName(rule) == "description";
    case CharacterNames => assert ResumeName(rule) == "character_names";
    case CharacterTypes => assert ResumeName(rule) == "character_types";
    case VoiceActorNames => assert ResumeName(rule) == "voice_actor_names";
    case Languages => assert ResumeName(rule) == "languages";
    case CharacterImages => assert ResumeName(rule) == "character_images";
    case VoiceActorImages => assert ResumeName(rule) == "voice_actor_images";
    case Statuses => assert ResumeName(rule) == "statuses";
    case Numbers => assert ResumeName(rule) == "numbers";
    case Synonyms => assert ResumeName(rule) == "synonyms";
    case JapaneseTitle => assert ResumeName(rule) == "japanese_title";
    case EnglishTitle => assert ResumeName(rule) == "english_title";
    case AnimeType => assert ResumeName(rule) == "anime_type";
    case Episodes => assert ResumeName(rule) == "episodes";
    case Status => assert ResumeName(rule) == "status";
    case Aired => assert ResumeName(rule) == "aired";
    case Premiered => assert ResumeName(rule) == "premiered";
    case Broadcast => assert ResumeName(rule) == "broadcast";
    case Producers => assert ResumeName(rule) == "producers";
    case Licensors => assert ResumeName(rule) == "licensors";
    case Studios => assert ResumeName(rule) == "studios";
    case Source => assert ResumeName(rule) == "source";
    case Genres => assert ResumeName(rule) == "genres";
    case Themes => assert ResumeName(rule) == "themes";
    case Duration => assert ResumeName(rule) == "duration";
    case Rating => assert ResumeName(rule) == "rating";
    case Score => assert ResumeName(rule) == "score";
    case Ranked => assert ResumeName(rule) == "ranked";
    case Popularity => assert ResumeName(rule) == "popularity";
    case Members => assert ResumeName(rule) == "members";
    case Favorites => assert ResumeName(rule) == "favorites";
  }

  /** Each fresh key name reads back as its key. */
  lemma FreshNameRoundTrip(k: Key)
    ensures FreshKeyOf(FreshName(k)) == Some(k)
  {
    if k.Detail? {
      ResumeNameRoundTrip(k.rule);
    }
  }

  /** The resume record's 31 keys have 31 distinct Python names. */
  lemma ResumeNamesAreDistinct(a: Selectors.Rule, b: Selectors.Rule)
    ensures ResumeName(a) == ResumeName(b) <==> a == b
  {
    ResumeNameRoundTrip(a);
    ResumeNameRoundTrip(b);
  }

  /** The fresh record's 34 keys have 34 distinct Python names. */
  lemma FreshNamesAreDistinct(a: Key, b: Key)
    ensures FreshName(a) == FreshName(b) <==> a == b
  {
    FreshNameRoundTrip(a);
    FreshNameRoundTrip(b);
  }

  /** The three values the fresh spider copies from the listing row. */
  datatype Listing = Listing(title: Raw, imageUrl: Raw, score: Raw)

  /** A yielded dictionary: the listing values when the spider stores them,
      and one value per detail rule. */
  datatype Record = Record(listing: Option<Listing>, details: map<Selectors.Rule, Raw>)

  /** Whether a record holds key `k`: the listing keys when it stores the
      listing values, a rule's key when it stores that rule's value. */
  predicate HasKey(r: Record, k: Key)
  {
    match k
    case Detail(rule) => rule in r.details
    case _ => r.listing.Some?
  }

  /** The cleaned value of one rule on a page. */
  function Field(m: map<Selectors.Rule, seq<string>>, rule: Selectors.Rule): Raw
  {
    Clean(Selectors.Select(m, rule))
  }

  /** `None`, or the string a `.get()` returned. */
  function FromGet(o: Option<string>): Raw
  {
    match o
    case None => Absent
    case Some(s) => Str(s)
  }

  /** The detail values of a page, one per rule: a `.getall()` rule stores its
      matches with the blank ones dropped and the rest stripped, an empty list
      when its region is missing; a `.get()` rule stores its first match
      stripped, or `None` when it matched nothing. */
  function Details(m: map<Selectors.Rule, seq<string>>): (d: map<Selectors.Rule, Raw>)
    ensures forall rule :: rule in d
    ensures forall rule :: IsClean(d[rule])
    ensures forall rule :: !Selectors.FirstMatchOnly(rule) ==>
              d[rule] == Lst(CleanList(if rule in m then m[rule] else []))
    ensures forall rule :: Selectors.FirstMatchOnly(rule) ==>
              d[rule] == (if rule in m && m[rule] != [] then Str(Strip(m[rule][0])) else Absent)
  {
    map rule: Selectors.Rule :: Field(m, rule)
  }

  /** The record the fresh spider builds from the listing context and the
      page: it holds all 34 keys; each listing value is the stripped context
      string, or `None` when the row's selector matched nothing; the detail
      values are those of the page. */
  function FreshRecord(title: Option<string>, imageUrl: Option<string>, score: Option<string>,
                       m: map<Selectors.Rule, seq<string>>): (r: Record)
    ensures forall k :: HasKey(r, k)
    ensures r.listing.Some?
    ensures r.listing.value.title == (if title.Some? then Str(Strip(title.value)) else Absent)
    ensures r.listing.value.imageUrl == (if imageUrl.Some? then Str(Strip(imageUrl.value)) else Absent)
    ensures r.listing.value.score == (if score.Some? then Str(Strip(score.value)) else Absent)
    ensures r.details == Details(m)
  {
    Record(Some(Listing(Clean(FromGet(title)), Clean(FromGet(imageUrl)), Clean(FromGet(score)))), Details(m))
  }

  /** The record the resume spider builds from the page: exactly the 31 rule
      keys, nothing from the listing, and the page's detail values. */
  function ResumeRecord(m: map<Selectors.Rule, seq<string>>): (r: Record)
    ensures forall k :: HasKey(r, k) <==> k.Detail?
    ensures r.details == Details(m)
  {
    Record(None, Details(m))
  }

  /** Both spiders store the same cleaned value for each rule of the same
      page. */
  lemma SpidersAgreeOnDetailFields(title: Option<string>, imageUrl: Option<string>, score: Option<string>,
                                   m: map<Selectors.Rule, seq<string>>)
    ensures FreshRecord(title, imageUrl, score, m).details == ResumeRecord(m).details
  {
  }

  /** The two spiders spell two rule keys differently: the fresh spider's
      `type` and `score_detail` are the resume spider's `anime_type` and
      `score`, and the fresh spider's `score` is the listing's score, not the
      detail page's. */
  lemma SpidersSpellKeysDifferently(rule: Selectors.Rule)
    ensures FreshName(Detail(rule)) == ResumeName(rule)
        <==> rule != Selectors.AnimeType && rule != Selectors.Score
    ensures FreshName(ListingScore) == ResumeName(Selectors.Score)
    ensures FreshName(Detail(Selectors.Score)) == "score_detail"
  {
    assert |FreshName(Detail(Selectors.AnimeType))| != |ResumeName(Selectors.AnimeType)|;
    assert |FreshName(Detail(Selectors.Score))| != |ResumeName(Selectors.Score)|;
  }

  /** A rule whose region is missing from the page leaves its own value empty
      and every other value as it would have been: one missing section never
      prevents the others from being extracted. */
  lemma MissingRegion(m: map<Selectors.Rule, seq<string>>, rule: Selectors.Rule)
    ensures Details(m - {rule})[rule] == (if Selectors.FirstMatchOnly(rule) then Absent else Lst([]))
    ensures forall other :: other != rule ==> Details(m - {rule})[other] == Details(m)[other]
  {
    forall other | other != rule
      ensures Details(m - {rule})[other] == Details(m)[other]
    {
      assert Selectors.Select(m - {rule}, other) == Selectors.Select(m, other);
    }
  }
}
