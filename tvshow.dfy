/**
 * TV shows and their episodes. A show keeps its episodes in order, numbered
 * from 1, with a wrap-around playback cursor and an optional prototype
 * episode that new episodes are cloned from. Both TVShow and Episode are
 * watchables; each keeps its watchable part (title, studio, language, tags,
 * observers, validity) in `base`, which is what a watchlist holds.
 */
module TVShows {
  import opened Wrappers
  import opened WatchLists
  import Tags
  import Cursor

  class TVShow {
    const base: Watchable
    var episodes: seq<Episode>
    var nextToWatch: nat
    var prototype: Option<Episode>

    /** The watchable parts of the episodes and of the prototype, if any. */
    ghost function EpisodeBases(): set<Watchable>
      reads this, episodes
    {
      set e | e in episodes :: e.base
    }

    /**
     * Every episode belongs to this show and is numbered by its position; the
     * cursor is 0 or designates an episode; the prototype belongs to this show
     * and is not in the list; and the show's validity flag says whether some
     * episode is valid.
     */
    ghost predicate Valid()
      reads this, base, episodes, EpisodeBases(), if prototype.Some? then {prototype.value} else {}
    {
      && (forall i :: 0 <= i < |episodes| ==> episodes[i].show == this && episodes[i].number == i + 1)
      && (forall i :: 0 <= i < |episodes| ==> episodes[i].base != base)
      && (nextToWatch == 0 || nextToWatch < |episodes|)
      && (prototype.Some? ==> prototype.value.show == this && prototype.value !in episodes)
      && (base.valid <==> exists i :: 0 <= i < |episodes| && episodes[i].base.valid)
    }

    constructor (title: string, language: Language, studio: string)
      ensures Valid()
      ensures fresh(base) && base.title == title && base.language == language && base.studio == studio
      ensures base.tags == map[] && base.observers == []
      ensures episodes == [] && nextToWatch == 0 && prototype == None
    {
      base := new Watchable(title, studio, language, false);
      episodes := [];
      nextToWatch := 0;
      prototype := None;
    }

    function GetTotalCount(): int
      reads this
    {
      |episodes|
    }

    /** The episodes still to play before the cursor wraps around. */
    function GetRemainingCount(): (r: int)
      requires Valid()
      reads this, base, episodes, EpisodeBases(), if prototype.Some? then {prototype.value} else {}
      ensures 0 <= r <= |episodes|
      ensures r == 0 <==> episodes == []
    {
      |episodes| - nextToWatch
    }

    /** The episode with a given 1-based number. */
    function GetEpisode(n: int): (r: Episode)
      requires Valid() && 1 <= n <= |episodes|
      reads this, base, episodes, EpisodeBases(), if prototype.Some? then {prototype.value} else {}
      ensures r in episodes && r.show == this && r.number == n
    {
      episodes[n - 1]
    }

    /**
     * Creates an episode numbered one past the last, with the show's studio and
     * language, and appends it. `readable` is whether its file can be read.
     */
    method CreateAndAddEpisode(path: string, title: string, readable: bool) returns (e: Episode)
      requires Valid()
      modifies this, base`valid
      ensures Valid()
      ensures fresh(e) && fresh(e.base) && episodes == old(episodes) + [e]
      ensures e.show == this && e.number == |old(episodes)| + 1 && e.path == path && e.cast == map[]
      ensures e.base.title == title && e.base.studio == base.studio && e.base.language == base.language
      ensures e.base.valid == readable && e.base.tags == map[] && e.base.observers == []
      ensures nextToWatch == old(nextToWatch) && prototype == old(prototype)
    {
      e := new Episode(this, |episodes| + 1, title, path, readable);
      Append(e);
    }

    /** Appends a fresh episode and folds its validity into the show's. */
    method Append(e: Episode)
      requires Valid() && e.show == this && e.number == |episodes| + 1
      requires e.base != base && (prototype.Some? ==> e != prototype.value)
      modifies this, base`valid
      ensures Valid()
      ensures episodes == old(episodes) + [e] && base.valid == (old(base.valid) || e.base.valid)
      ensures nextToWatch == old(nextToWatch) && prototype == old(prototype)
    {
      ghost var before := episodes;
      episodes := episodes + [e];
      base.valid := base.valid || e.base.valid;
      assert forall i :: 0 <= i < |before| ==> episodes[i] == before[i];
      assert episodes[|before|] == e;
    }

    /**
     * Selects a copy of episode n as the prototype; later edits to episode n
     * do not reach the copy.
     */
    method SetEpisodePrototype(n: int)
      requires Valid() && 1 <= n <= |episodes|
      modifies `prototype
      ensures Valid()
      ensures prototype.Some? && fresh(prototype.value) && fresh(prototype.value.base)
      ensures prototype.value.Copies(old(episodes[n - 1]))
    {
      var p := new Episode.Clone(GetEpisode(n));
      prototype := Some(p);
    }

    /**
     * Creates an episode from a copy of the prototype, choosing episode 1 as
     * the prototype first when there is none, and appends it with the next
     * number and the given path and title.
     */
    method CreateAndAddEpisodeFromPrototype(path: string, title: string, readable: bool) returns (e: Episode)
      requires Valid() && |episodes| > 0
      modifies this, base`valid
      ensures Valid() && prototype.Some?
      ensures old(prototype).Some? ==> prototype == old(prototype)
      ensures old(prototype).None? ==> fresh(prototype.value) && prototype.value.Copies(old(episodes[0]))
      ensures fresh(e) && fresh(e.base) && episodes == old(episodes) + [e]
      ensures e.show == this && e.number == |old(episodes)| + 1 && e.path == path
      ensures e.base.title == title && e.base.valid == readable
      ensures e.cast == prototype.value.cast && e.base.tags == prototype.value.base.tags
      ensures e.base.studio == prototype.value.base.studio && e.base.language == prototype.value.base.language
      ensures nextToWatch == old(nextToWatch)
    {
      if prototype.None? {
        SetEpisodePrototype(1);
      }
      var p := prototype.value;
      assert Valid() && p.show == this;
      e := new Episode.Clone(p);
      e.Relabel(|episodes| + 1, path, title, readable);
      Append(e);
    }

    /** Plays on: returns the episode under the cursor and advances it, wrapping to 0. */
    method Next() returns (e: Episode)
      requires Valid() && GetRemainingCount() > 0
      modifies `nextToWatch
      ensures Valid()
      ensures e == old(episodes[nextToWatch]) && e.number == old(nextToWatch) + 1
      ensures nextToWatch == Cursor.Advance(old(nextToWatch), |episodes|)
    {
      e := episodes[nextToWatch];
      nextToWatch := Cursor.Advance(nextToWatch, |episodes|);
    }

    method Reset()
      requires Valid()
      modifies `nextToWatch
      ensures Valid() && nextToWatch == 0
    {
      nextToWatch := 0;
    }

    /** Searches the episodes for a valid one; agrees with the show's validity flag. */
    method IsValid() returns (b: bool)
      requires Valid()
      ensures b <==> exists i :: 0 <= i < |episodes| && episodes[i].base.valid
      ensures b == base.valid
    {
      for i := 0 to |episodes|
        invariant forall j :: 0 <= j < i ==> !episodes[j].base.valid
      {
        if episodes[i].base.valid {
          return true;
        }
      }
      return false;
    }
  }

  /** One episode of a show: its file path, its 1-based number and its cast. */
  class Episode {
    const show: TVShow
    const base: Watchable
    var path: string
    var number: int
    var cast: map<string, string>

    /** Only TVShow.CreateAndAddEpisode creates episodes from scratch. */
    constructor (show: TVShow, number: int, title: string, path: string, readable: bool)
      ensures this.show == show && this.number == number && this.path == path && cast == map[]
      ensures fresh(base) && base.title == title && base.valid == readable
      ensures base.studio == show.base.studio && base.language == show.base.language
      ensures base.tags == map[] && base.observers == []
    {
      this.show := show;
      this.number := number;
      this.path := path;
      cast := map[];
      base := new Watchable(title, show.base.studio, show.base.language, readable);
    }

    /** This episode is a copy of `original`: same show, number, path, cast and watchable fields. */
    ghost predicate Copies(original: Episode)
      reads this, base, original, original.base
    {
      && show == original.show && number == original.number && path == original.path
      && cast == original.cast && base != original.base
      && base.title == original.base.title && base.studio == original.base.studio
      && base.language == original.base.language && base.tags == original.base.tags
      && base.observers == original.base.observers && base.valid == original.base.valid
    }

    /** A copy with its own cast and its own tags, equal to the original's. */
    constructor Clone(original: Episode)
      ensures fresh(base) && Copies(original)
    {
      show := original.show;
      number := original.number;
      path := original.path;
      cast := original.cast;
      base := new Watchable.Copy(original.base);
    }

    /** Gives a copy its own number, path and title; its validity is that of the new path. */
    method Relabel(number: int, path: string, title: string, readable: bool)
      modifies `number, `path, base`title, base`valid
      ensures this.number == number && this.path == path && base.title == title && base.valid == readable
    {
      this.number := number;
      this.path := path;
      base.title := title;
      base.valid := readable;
    }

    /**
     * Casts an actor as a character, or removes the character when the actor
     * is null; returns the previous actor or null.
     */
    method SetCast(character: string, actor: Option<string>) returns (previous: Option<string>)
      modifies `cast
      ensures previous == Tags.Lookup(old(cast), character)
      ensures cast == Tags.Assign(old(cast), character, actor).entries
      ensures GetCast(character) == actor
      ensures forall other :: other != character ==> GetCast(other) == old(GetCast(other))
    {
      var a := Tags.Assign(cast, character, actor);
      cast := a.entries;
      previous := a.previous;
    }

    /** The actor cast as the character, or null when the character has none. */
    function GetCast(character: string): (r: Option<string>)
      reads this
      ensures r.Some? <==> character in cast
      ensures r.Some? ==> r.value == cast[character]
    {
      Tags.Lookup(cast, character)
    }

    predicate HasPrevious()
      reads this
    {
      number > 1
    }

    predicate HasNext()
      reads this, show
    {
      number < show.GetTotalCount()
    }

    /** The episode numbered one less, looked up in the show. */
    function GetPrevious(): (r: Episode)
      requires show.Valid() && HasPrevious() && number - 1 <= |show.episodes|
      reads this, show, show.base, show.episodes, show.EpisodeBases()
      reads if show.prototype.Some? then {show.prototype.value} else {}
      ensures r in show.episodes && r.number == number - 1
    {
      show.GetEpisode(number - 1)
    }

    /** The episode numbered one more, looked up in the show. */
    function GetNext(): (r: Episode)
      requires show.Valid() && HasNext() && 0 <= number
      reads this, show, show.base, show.episodes, show.EpisodeBases()
      reads if show.prototype.Some? then {show.prototype.value} else {}
      ensures r in show.episodes && r.number == number + 1
    {
      show.GetEpisode(number + 1)
    }
  }

  /**
   * The episodes are numbered 1 to the total count, each number naming
   * exactly one episode.
   */
  lemma EpisodeNumbers(show: TVShow)
    requires show.Valid()
    ensures forall i :: 0 <= i < |show.episodes| ==> 1 <= show.episodes[i].number <= show.GetTotalCount()
    ensures forall i, j :: 0 <= i < j < |show.episodes| ==> show.episodes[i].number != show.episodes[j].number
    ensures forall n :: 1 <= n <= show.GetTotalCount() ==> show.GetEpisode(n).number == n
  {
  }

  /**
   * Navigation within a show: the i-th episode has a previous one exactly when
   * it is not the first and a next one exactly when it is not the last, and
   * stepping forward then back returns to it.
   */
  lemma Navigation(show: TVShow, i: int)
    requires show.Valid() && 0 <= i < |show.episodes|
    ensures show.episodes[i].HasPrevious() <==> i > 0
    ensures show.episodes[i].HasNext() <==> i < |show.episodes| - 1
    ensures i > 0 ==> show.episodes[i].GetPrevious() == show.episodes[i - 1]
    ensures i < |show.episodes| - 1 ==>
              && show.episodes[i].GetNext() == show.episodes[i + 1]
              && show.episodes[i].GetNext().GetPrevious() == show.episodes[i]
  {
    var e := show.episodes[i];
    assert e.show == show && e.number == i + 1;
    if i < |show.episodes| - 1 {
      assert show.episodes[i + 1].show == show;
    }
  }
}
