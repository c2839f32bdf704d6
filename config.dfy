/** The server's configuration constants (server/config/constants.js). */
module Config {
  /** The sender name of system messages. */
  const BOT_NAME: string := "Slave Bot"

  const VALID_THEMES: seq<string> := ["light", "dark"]

  const DEFAULT_THEME: string := "light"

  /** Prefix of the transport channel a group's members are subscribed to. */
  const GROUP_ROOM_PREFIX: string := "group_"

  /** Separator between the two sorted usernames of a private conversation. */
  const PRIVATE_ROOM_SEPARATOR: string := "_pm_"
}
