/**
 * The `ui` store slice (src/store/slices/uiSlice.ts): the active menu entry,
 * the settings panel, the theme and the sidebar.
 */
module UiSlice {

  datatype Theme = Light | Dark

  /** The slice's fields as one value. */
  datatype UiState = UiState(activeMenu: string, showSettings: bool, theme: Theme, isSidebarOpen: bool)

  /** `initialState`. */
  const Initial := UiState("mis-evaluaciones", false, Light, false)

  /** `toggleSettings`: the settings flag is negated, nothing else changes. */
  function ToggledSettings(s: UiState): (r: UiState)
    ensures r.showSettings != s.showSettings
    ensures r.(showSettings := s.showSettings) == s
  {
    s.(showSettings := !s.showSettings)
  }

  /** `toggleSidebar`: the sidebar flag is negated, nothing else changes. */
  function ToggledSidebar(s: UiState): (r: UiState)
    ensures r.isSidebarOpen != s.isSidebarOpen
    ensures r.(isSidebarOpen := s.isSidebarOpen) == s
  {
    s.(isSidebarOpen := !s.isSidebarOpen)
  }

  /** `closeSidebar`: the sidebar is closed, nothing else changes. */
  function ClosedSidebar(s: UiState): (r: UiState)
    ensures !r.isSidebarOpen
    ensures r.(isSidebarOpen := s.isSidebarOpen) == s
  {
    s.(isSidebarOpen := false)
  }

  /** Toggling the settings twice restores the state. */
  lemma ToggleSettingsTwice(s: UiState)
    ensures ToggledSettings(ToggledSettings(s)) == s
  {
  }

  /** Toggling the sidebar twice restores the state. */
  lemma ToggleSidebarTwice(s: UiState)
    ensures ToggledSidebar(ToggledSidebar(s)) == s
  {
  }

  /** Closing is idempotent, and closing an already closed sidebar changes nothing. */
  lemma CloseSidebarIdempotent(s: UiState)
    ensures ClosedSidebar(ClosedSidebar(s)) == ClosedSidebar(s)
    ensures !s.isSidebarOpen ==> ClosedSidebar(s) == s
  {
  }

  /** Closing after a toggle is closing: whatever the sidebar was, it ends closed with the rest unchanged. */
  lemma CloseAfterToggle(s: UiState)
    ensures ClosedSidebar(ToggledSidebar(s)) == ClosedSidebar(s)
  {
  }

  /** The slice state, changed in place by the reducers. */
  class UiStore {
    var activeMenu: string
    var showSettings: bool
    var theme: Theme
    var isSidebarOpen: bool

    /** The current fields as one value. */
    function State(): UiState
      reads this
    {
      UiState(activeMenu, showSettings, theme, isSidebarOpen)
    }

    /** `initialState`: "mis-evaluaciones", settings hidden, light theme, sidebar closed. */
    constructor ()
      ensures State() == Initial
    {
      activeMenu := "mis-evaluaciones";
      showSettings := false;
      theme := Light;
      isSidebarOpen := false;
    }

    /** `setActiveMenu`. */
    method SetActiveMenu(menu: string)
      modifies this
      ensures State() == old(State()).(activeMenu := menu)
    {
      activeMenu := menu;
    }

    /** `toggleSettings`. */
    method ToggleSettings()
      modifies this
      ensures State() == ToggledSettings(old(State()))
    {
      showSettings := !showSettings;
    }

    /** `setTheme`. */
    method SetTheme(t: Theme)
      modifies this
      ensures State() == old(State()).(theme := t)
    {
      theme := t;
    }

    /** `toggleSidebar`. */
    method ToggleSidebar()
      modifies this
      ensures State() == ToggledSidebar(old(State()))
    {
      isSidebarOpen := !isSidebarOpen;
    }

    /** `closeSidebar`. */
    method CloseSidebar()
      modifies this
      ensures State() == ClosedSidebar(old(State()))
    {
      isSidebarOpen := false;
    }
  }
}
