/** The theme handler (server/socket/handlers/themeHandler.js). */
module ThemeHandler {
  import opened Users
  import opened Events
  import Config

  /** `handleChangeTheme(socket, { theme })`: a bound socket asking for a known
      theme has it stored for its username and confirmed; anything else
      stores and sends nothing. */
  method HandleChangeTheme(users: UserService, id: string, theme: string) returns (events: seq<Event>)
    modifies users
    ensures users.users == old(users.users)
    ensures var user := old(users.GetCurrentUser(id));
            if user.Some? && theme in Config.VALID_THEMES then
              users.userThemes == old(users.userThemes)[user.value.username := theme] &&
              users.GetUserTheme(user.value.username) == theme &&
              events == [Event(ToSocket(id), "themePreference", ThemePreference(theme))]
            else
              users.userThemes == old(users.userThemes) && events == []
  {
    var user := users.GetCurrentUser(id);
    if user.Some? && theme in Config.VALID_THEMES {
      users.SetUserTheme(user.value.username, theme);
      events := [Event(ToSocket(id), "themePreference", ThemePreference(theme))];
    } else {
      events := [];
    }
  }
}
