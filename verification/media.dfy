/** The catalog records the planner and the page read, and the title fallback both of them use. */
module Media {
  import opened Wrappers

  datatype Title = Title(romaji: Option<string>, english: Option<string>)

  datatype CoverImage = CoverImage(medium: Option<string>, color: Option<string>)

  datatype NextAiring = NextAiring(airingAt: Option<int>, episode: Option<int>)

  /** One title of the seasonal catalog, every field as optional as the upstream query leaves it. */
  datatype MediaItem = MediaItem(
    id: int,
    status: Option<string>,
    title: Option<Title>,
    coverImage: Option<CoverImage>,
    episodes: Option<int>,
    averageScore: Option<int>,
    popularity: Option<int>,
    genres: Option<seq<string>>,
    nextAiringEpisode: Option<NextAiring>
  )

  /** JavaScript truthiness of an optional string: present and not empty. */
  predicate Truthy(s: Option<string>) {
    s.Some? && s.value != ""
  }

  /** `title.english || title.romaji || "Untitled"`: the first non-empty title, else the literal. */
  function DisplayTitle(t: Title): (r: string)
    ensures r != ""
    ensures Truthy(t.english) ==> r == t.english.value
    ensures !Truthy(t.english) && Truthy(t.romaji) ==> r == t.romaji.value
    ensures !Truthy(t.english) && !Truthy(t.romaji) ==> r == "Untitled"
  {
    if Truthy(t.english) then t.english.value
    else if Truthy(t.romaji) then t.romaji.value
    else "Untitled"
  }

  /** The same chain behind optional chaining, `title?.english || title?.romaji || "Untitled"`. */
  function PlanTitle(t: Option<Title>): (r: string)
    ensures r != ""
    ensures t.None? ==> r == "Untitled"
    ensures t.Some? ==> r == DisplayTitle(t.value)
  {
    match t
    case None => "Untitled"
    case Some(title) => DisplayTitle(title)
  }
}
