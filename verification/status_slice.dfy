/** The status store: a loading flag, the current page and the colour theme. */
module StatusSlice {

  datatype Theme = Light | Dark

  /** `toggleTheme`'s rule: light becomes dark and anything else becomes light. */
  function Toggled(t: Theme): (r: Theme)
    ensures r != t
  {
    if t == Light then Dark else Light
  }

  /** Toggling twice gives back the theme. */
  lemma ToggleInvolution(t: Theme)
    ensures Toggled(Toggled(t)) == t
  {
  }

  /** The theme after `n` toggles: it returns to the start after every even count. */
  function ToggledTimes(t: Theme, n: nat): Theme {
    if n == 0 then t else Toggled(ToggledTimes(t, n - 1))
  }

  lemma {:induction false} ToggledTimesParity(t: Theme, n: nat)
    ensures ToggledTimes(t, n) == if n % 2 == 0 then t else Toggled(t)
  {
    if n > 0 {
      ToggledTimesParity(t, n - 1);
      ToggleInvolution(t);
    }
  }

  const HomePage := "home"

  class StatusStore {
    var isLoading: bool
    var currentPage: string
    var theme: Theme

    /** Not loading, on the home page, light theme. */
    constructor()
      ensures !isLoading && currentPage == HomePage && theme == Light
    {
      isLoading := false;
      currentPage := HomePage;
      theme := Light;
    }

    method SetLoading(loading: bool)
      modifies this
      ensures isLoading == loading
      ensures currentPage == old(currentPage) && theme == old(theme)
    {
      isLoading := loading;
    }

    method SetCurrentPage(page: string)
      modifies this
      ensures currentPage == page
      ensures isLoading == old(isLoading) && theme == old(theme)
    {
      currentPage := page;
    }

    method ToggleTheme()
      modifies this
      ensures theme == Toggled(old(theme))
      ensures isLoading == old(isLoading) && currentPage == old(currentPage)
    {
      theme := Toggled(theme);
    }
  }
}
