/**
 * The start-up script's session defaults and `switch_page` (switch_page.py): normalise the
 * session's page against the options for the current login status, read the sidebar choice
 * and pick the page handler.
 */
module SwitchPage {
  import opened Wrappers
  import opened Streamlit

  const LoginPageName := "登录"
  const LoggedInPages := ["文本检测", "图像检测", "视频检测", "批量图像检测", "用户管理"]
  const LoggedOutPages := [LoginPageName, "注册"]

  /** The two configured API key pairs (API_KEY1/SECRET_KEY1 and API_KEY2/SECRET_KEY2). */
  datatype KeyPair = KeyPair1 | KeyPair2

  /** The page function `switch_page` calls, with the key pair it passes. */
  datatype Handler =
    | TextDetection(keys: KeyPair)
    | ImageDetection(keys: KeyPair)
    | VideoDetection(keys: KeyPair)
    | BatchImageDetection(keys: KeyPair)
    | ManageUsers
    | LoginHandler
    | RegisterHandler

  function PageOptions(loggedIn: bool): (options: seq<string>)
    ensures |options| > 0
  {
    if loggedIn then LoggedInPages else LoggedOutPages
  }

  /** The session page before the selectbox: reset to the first option when it is not offered. */
  function NormalisePage(page: string, options: seq<string>): (r: string)
    requires |options| > 0
    ensures r in options
    ensures page in options ==> r == page
    ensures page !in options ==> r == options[0]
  {
    if page in options then page else options[0]
  }

  /** `page_options.index(page)`: the first position holding `page`. */
  function IndexOf(options: seq<string>, page: string): (i: nat)
    requires page in options
    ensures i < |options| && options[i] == page
    ensures forall j :: 0 <= j < i ==> options[j] != page
  {
    if options[0] == page then 0 else 1 + IndexOf(options[1..], page)
  }

  /** The if/elif chain of each branch. */
  function Dispatch(loggedIn: bool, selected: string): (h: Option<Handler>)
    ensures !loggedIn ==> h == Some(if selected == LoginPageName then LoginHandler else RegisterHandler)
    ensures loggedIn ==> (h.Some? <==> selected in LoggedInPages)
  {
    if loggedIn then
      if selected == "文本检测" then Some(TextDetection(KeyPair1))
      else if selected == "图像检测" then Some(ImageDetection(KeyPair2))
      else if selected == "视频检测" then Some(VideoDetection(KeyPair2))
      else if selected == "批量图像检测" then Some(BatchImageDetection(KeyPair2))
      else if selected == "用户管理" then Some(ManageUsers)
      else None
    else if selected == LoginPageName then Some(LoginHandler)
    else Some(RegisterHandler)
  }

  /** Module-level start-up code: default page "登录" and no user when the keys are absent. */
  method InitSession(session: SessionState)
    modifies session
    ensures session.page == Some(if old(session.page).None? then LoginPageName else old(session.page).value)
    ensures session.loggedIn == Initialised(old(session.loggedIn))
  {
    if session.page.None? {
      session.page := Some(LoginPageName);
    }
    session.InitLoggedIn();
  }

  /**
   * `switch_page()`. `choice` is the sidebar selectbox: None when the user leaves it at the
   * default index (the normalised page), Some(i) when the user picks option i.
   */
  method Switch(session: SessionState, choice: Option<nat>) returns (handler: Option<Handler>)
    requires session.page.Some?
    requires choice.Some? ==> choice.value < |PageOptions(Truthy(session.loggedIn))|
    modifies session`page
    ensures var options := PageOptions(Truthy(session.loggedIn));
            && session.page.Some?
            && session.page.value in options
            && session.page.value ==
                 (if choice.Some? then options[choice.value]
                  else NormalisePage(old(session.page).value, options))
    ensures handler == Dispatch(Truthy(session.loggedIn), session.page.value)
  {
    var loggedIn := Truthy(session.loggedIn);
    var options := PageOptions(loggedIn);
    if session.page.value !in options {
      session.page := Some(options[0]);
    }
    var index := IndexOf(options, session.page.value);
    var selected := if choice.Some? then options[choice.value] else options[index];
    session.page := Some(selected);
    handler := Dispatch(loggedIn, selected);
  }

  /** Every offered page has a handler; logged out, only login and register are reachable. */
  lemma OfferedPagesDispatch(loggedIn: bool, selected: string)
    requires selected in PageOptions(loggedIn)
    ensures Dispatch(loggedIn, selected).Some?
    ensures !loggedIn ==> Dispatch(loggedIn, selected).value in {LoginHandler, RegisterHandler}
    ensures loggedIn ==> Dispatch(loggedIn, selected).value !in {LoginHandler, RegisterHandler}
  {
  }

  /** The text page gets key pair 1; the image, video and batch pages get key pair 2. */
  lemma KeyPairs(selected: string)
    ensures var h := Dispatch(true, selected);
            && (h.Some? && h.value.TextDetection? ==> h.value.keys == KeyPair1)
            && (h.Some? && (h.value.ImageDetection? || h.value.VideoDetection? || h.value.BatchImageDetection?)
                ==> h.value.keys == KeyPair2)
  {
  }

  /** A first run on a logged-in session (default page "登录") lands on the text page. */
  lemma FirstPageAfterLogin()
    ensures NormalisePage(LoginPageName, PageOptions(true)) == "文本检测"
  {
  }
}
