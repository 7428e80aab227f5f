/**
 * The bot's entry file: the `guild_slash_command` decorator, which restricts
 * every command it registers to the bot's own guild, and `/lintorder`, which
 * shows the linter's class-member order in an embed whose description is cut
 * to Discord's 4096-character limit.
 */
module DiscordBot {
  import opened Wrappers

  /** GUILD_IDS. */
  const GuildIds: seq<int> := [1393033395298373643]

  /** Discord's limit on an embed description. */
  const EmbedDescriptionLimit: nat := 4096

  /** An option passed to `bot.slash_command`: text, or a list of guild ids. */
  datatype CommandOption = Str(s: string) | Ids(ids: seq<int>)

  /**
   * `guild_slash_command(**kwargs)`: the options are passed on to
   * `bot.slash_command` with `guild_ids` set to GUILD_IDS, replacing any value
   * the caller gave.
   */
  method GuildSlashCommand(kwargs: map<string, CommandOption>) returns (registered: map<string, CommandOption>)
    ensures "guild_ids" in registered && registered["guild_ids"] == Ids(GuildIds)
    ensures registered.Keys == kwargs.Keys + {"guild_ids"}
    ensures forall k :: k in kwargs && k != "guild_ids" ==> registered[k] == kwargs[k]
  {
    var options := kwargs;
    options := options["guild_ids" := Ids(GuildIds)];
    registered := options;
  }

  /** `content[:4093] + "..."` when the text exceeds 4096 characters, the text itself otherwise. */
  function TruncateDescription(content: string): (r: string)
    ensures |r| <= EmbedDescriptionLimit
    ensures |content| <= EmbedDescriptionLimit ==> r == content
    ensures |content| > EmbedDescriptionLimit ==>
      |r| == EmbedDescriptionLimit && r[..EmbedDescriptionLimit - 3] == content[..EmbedDescriptionLimit - 3] && r[EmbedDescriptionLimit - 3..] == "..."
  {
    if |content| > EmbedDescriptionLimit then content[..EmbedDescriptionLimit - 3] + "..." else content
  }

  /** Truncating again changes nothing: a truncated description already fits. */
  lemma TruncateIdempotent(content: string)
    ensures TruncateDescription(TruncateDescription(content)) == TruncateDescription(content)
  {
  }

  datatype LintReply =
    | FileNotFound                            // "Bot error: File not found!"
    | LintEmbed(title: string, description: string)

  /** `/lintorder`: `linterOrder` is the contents of linter_order.txt, `None` when the file does not exist. */
  function LintOrder(linterOrder: Option<string>): (r: LintReply)
    ensures r == FileNotFound <==> linterOrder.None?
    ensures r.LintEmbed? ==> r.title == "GDLint class definition order"
    ensures r.LintEmbed? ==> |r.description| <= EmbedDescriptionLimit
    ensures r.LintEmbed? ==> (|linterOrder.value| <= EmbedDescriptionLimit <==> r.description == linterOrder.value)
  {
    if linterOrder.None? then FileNotFound
    else LintEmbed("GDLint class definition order", TruncateDescription(linterOrder.value))
  }
}
