/** The values every part of the relay shares: endpoints, routes, inbound sessions. */
module Domain {
  import opened Wrappers

  /** A bot-scoped channel: `{channelId, platform, botId}`; equality is structural. */
  datatype Endpoint = Endpoint(channelId: string, platform: string, botId: string)

  /**
   * A directed relay binding, the six-field tuple handed to a `Processor`
   * (`original*` fields are the source, `target*` fields the target).
   */
  datatype Route = Route(source: Endpoint, target: Endpoint)

  /** The same binding with source and target swapped. */
  function Reverse(r: Route): Route
  {
    Route(r.target, r.source)
  }

  /** Left and right wrap symbols of a name (`*PackageFormat[0]`, `[1]`). */
  datatype Wrap = Wrap(left: string, right: string)

  /** The symbols around a name. */
  function Wrapped(w: Wrap, name: string): string
  {
    w.left + name + w.right
  }

  /**
   * The fields of an inbound message session the relay reads. `content` is
   * absent when the adapter leaves it `undefined`/`null`; `username` is the
   * session-local display name; `quote` is the id of the quoted message, if any.
   */
  datatype Session = Session(
    messageId: string,
    channelId: string,
    platform: string,
    selfId: string,
    userId: string,
    guildId: string,
    content: Option<string>,
    username: Option<string>,
    quote: Option<string>)
}
