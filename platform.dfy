/** What the bot reads from a chat-platform message. Everything else about the
    platform (sessions, channels, permissions, display names) stays outside the
    model and enters as parameters. */
module Platform {
  import opened Wrappers

  datatype Author = Author(id: string, isBot: bool)

  /** A message: its community (guild), room (channel), creation time in epoch
      milliseconds, its author (absent for webhook posts) and its text content
      (absent when the message has no text). */
  datatype Message = Message(
    guildID: string,
    channelID: string,
    timestamp: int,
    author: Option<Author>,
    content: Option<string>)

  /** The clock, as the instants (epoch milliseconds) one year, one month,
      one week and one day before the moment a request is handled. */
  datatype Boundaries = Boundaries(year: int, month: int, week: int, day: int)
}
