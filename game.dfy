/**
 * `/game info`: the game row of the current channel shown as an embed: the
 * game's name, a description (the games table has no description column, so
 * the default text), a link to the game's repository, and the owner field cut
 * out of the stored owner text as the part between "(" and ")".
 */
module Game {
  import opened Wrappers
  import opened PyStrings
  import opened Databases

  /** GITHUB_URL_PREFIX. */
  const GithubUrlPrefix: string := "https://github.com/100-Devs-1-Game/"

  const DefaultDescription: string := "No description available."

  /** `GITHUB_URL_PREFIX + repo_name`; `None` where Python raises TypeError (a NULL or integer name). */
  function RepoUrl(repoName: Value): (r: Option<string>)
    ensures r.Some? <==> repoName.Text?
    ensures r.Some? ==> StartsWith(r.value, GithubUrlPrefix) && r.value[|GithubUrlPrefix|..] == repoName.s
  {
    if repoName.Text? then Some(GithubUrlPrefix + repoName.s) else None
  }

  /**
   * `owner.split("(", 1)[1].rstrip(")").strip()`; `None` where Python raises:
   * AttributeError for a value that is not text, IndexError for text with no "(".
   */
  function OwnerField(owner: Value): (r: Option<string>)
    ensures r.Some? <==> owner.Text? && '(' in owner.s
    ensures r.Some? ==> r.value == [] || (!IsSpace(r.value[0]) && !IsSpace(r.value[|r.value| - 1]))
  {
    if !owner.Text? then None
    else
      var after := AfterFirst(owner.s, '(');
      if after.None? then None else Some(Strip(TrimEndChar(after.value, ')')))
  }

  /** `game_info.get("description", ...)`. */
  function Description(game: Row): Value {
    if "description" in game.cols then game.cols["description"] else Text(DefaultDescription)
  }

  datatype GameEmbed = GameEmbed(title: Value, description: Value, repositoryField: string, ownerField: string)

  datatype InfoReply =
    | NoGameInfo          // "No game info found for this channel."
    | Raises              // the embed cannot be built: Python raises
    | Embed(embed: GameEmbed)

  /** `send_game_info(ctx, game_info)`: the embed, or `Raises`. */
  function GameEmbedOf(game: Row): (r: InfoReply)
    ensures r != NoGameInfo
    ensures r.Embed? <==> RepoUrl(Field(game, "repo_name")).Some? && OwnerField(Field(game, "owner")).Some?
    ensures r.Embed? ==> r.embed.repositoryField == "[GitHub Link](" + RepoUrl(Field(game, "repo_name")).value + ")"
    ensures r.Embed? ==> r.embed.ownerField == OwnerField(Field(game, "owner")).value
  {
    var url := RepoUrl(Field(game, "repo_name"));
    var owner := OwnerField(Field(game, "owner"));
    if url.None? || owner.None? then Raises
    else Embed(GameEmbed(Field(game, "name"), Description(game), "[GitHub Link](" + url.value + ")", owner.value))
  }

  /** `Game.info`: the channel's game row, then its embed. */
  function Info(db: Database, channelId: int): (r: InfoReply)
    reads db
    ensures r == NoGameInfo <==> forall k :: 0 <= k < |db.games| ==> !FieldIs(db.games[k], "channel_id", Int(channelId))
  {
    var game := GetGameInfo(db.games, Int(channelId));
    if game.None? then NoGameInfo else GameEmbedOf(game.value)
  }

  // ---------------------------------------------------------------------------
  // Properties
  // ---------------------------------------------------------------------------

  /** An owner stored as "name (display name)" reads back as the display name. */
  lemma OwnerFieldRoundTrip(name: string, display: string)
    requires '(' !in name
    requires display == [] || (!IsSpace(display[0]) && !IsSpace(display[|display| - 1]) && display[|display| - 1] != ')')
    ensures OwnerField(Text(name + "(" + display + ")")) == Some(display)
  {
    AfterFirstAppend(name, '(', display + ")");
    assert name + "(" + display + ")" == name + ['('] + (display + ")");
    assert TrimEndChar(display + ")", ')') == display by {
      assert (display + ")")[..|display|] == display;
    }
    StripOfStripped(display);
  }

  /**
   * `add_game` stores the owner's user name, so a game recorded for an owner
   * whose user name has no "(" has no owner field: `/game info` raises for it.
   */
  lemma InfoRaisesForPlainOwner(game: Row, ownerName: string)
    requires Field(game, "owner") == Text(ownerName) && '(' !in ownerName
    ensures GameEmbedOf(game) == Raises
  {
  }

  /** Rows of a well-formed games table have no description column, so the embed shows the default text. */
  lemma DescriptionIsDefault(game: Row)
    requires RowFits(Games, game)
    ensures Description(game) == Text(DefaultDescription)
  {
    assert "description" !in Columns(Games);
  }
}
