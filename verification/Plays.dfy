/** A play as a backup and a linking see it. */
module Plays {
  import opened Options

  datatype PlayKey = PlayKey(user: string, item: string, start: int)

  /** `name` is what the play's item is looked up by: a title's own name, or an episode's series. The
      columns no linking touches are an opaque number. */
  datatype Play = Play(id: int, source: Option<string>, key: PlayKey, name: string, active: bool, rest: int)
}
