/** What the pages emit to the browser, and the session state they read and write. */
module Streamlit {
  import opened Wrappers
  import opened Classifier

  /**
   * One element the page emits (`st.error`, `st.success`, `st.write` of a result or of a
   * string, `st.markdown`, `st.image`, `st.video`, `st.progress`).
   */
  datatype Message =
    | Error(text: string)
    | Success(text: string)
    | Write(result: Response)
    | WriteText(text: string)
    | Markdown(text: string)
    | ProgressBar(fraction: real)
    | ImageShown(caption: string)
    | VideoShown

  /** `st.session_state.logged_in_user`: not set, set to None, or set to a user name. */
  datatype UserSlot = Absent | NoneValue | Name(name: string)

  /** `if 'logged_in_user' not in st.session_state: st.session_state.logged_in_user = None` */
  function Initialised(slot: UserSlot): (r: UserSlot)
    ensures !r.Absent?
    ensures slot.Absent? ==> r == NoneValue
    ensures !slot.Absent? ==> r == slot
  {
    if slot.Absent? then NoneValue else slot
  }

  /** Python truthiness of the slot's value: a non-empty name. */
  predicate Truthy(slot: UserSlot) {
    slot.Name? && slot.name != ""
  }

  /** The two session fields the modelled pages use. `page == None` means the key is absent. */
  class SessionState {
    var page: Option<string>
    var loggedIn: UserSlot

    /** A fresh browser session: neither key is set. */
    constructor ()
      ensures page == None && loggedIn == Absent
    {
      page := None;
      loggedIn := Absent;
    }

    /** The guard each page runs first. */
    method InitLoggedIn()
      modifies this`loggedIn
      ensures loggedIn == Initialised(old(loggedIn))
    {
      if loggedIn.Absent? {
        loggedIn := NoneValue;
      }
    }
  }
}
