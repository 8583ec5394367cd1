# bad_info_streamlit in Dafny

A Dafny model of the core of `bad_info_streamlit`, a Streamlit web app that screens uploaded
text, images and videos for inappropriate content through a remote censorship service. The
model covers these parts of the app:

- **User handling**: the user name and password rules and password hashing
  (`user_management.py`), and the login, registration and account pages (`pages/login.py`,
  `pages/register.py`, `pages/manage_users.py`). All of them work on the shared
  `registered_users` dict and the SQLite `users` table behind `save_user`.
- **Page switching**: the start-up session defaults and `switch_page` (`switch_page.py`),
  including the page options, page normalisation, the sidebar choice and handler dispatch.
- **Video pipeline**: `video_processing` (`functions/video_processing.py`). It keeps frame
  `count` when `count % int(fps / 2) == 0` and names the file `frames/frameNNN.jpg`. The kept
  frames are classified on a thread pool, and results are collected in completion order with
  a progress value after each one.
- **Pages and helpers that read the classifier's verdict**: the video page
  (`pages/video_detection.py`), the batch image page (`pages/batch_image_detection.py`), and
  from `utils.py` the console helper `display_video_results` and the pie chart `sizes`.

How the outside world is modelled:

- **Classifier**: every page looks only at the `"conclusion"` field of each result and compares
  it with `"不合规"` (non-compliant). The censorship service is a function parameter that
  returns the decoded response (`map<string, string>`), or `None` when the request failed.
- **SHA-256**: a parameter `sha256: string -> string`.
- **Thread pool**: a completion order, a permutation of the submitted jobs.
- **Streamlit UI**: button presses and selectbox choices are inputs. What the page shows is a
  sequence of `Message` values (`st.error`, `st.success`, `st.write`, `st.markdown`,
  `st.image`, `st.video`, `st.progress`).
- **Python semantics**, written out where the code depends on them:
  - `int()` truncates toward zero.
  - `%` takes the sign of the divisor and raises `ZeroDivisionError` on 0.
  - `re.match(...$)` also matches before a final newline.
  - `None.get` raises `AttributeError`.
  - `del` of an absent key raises `KeyError`.
  - A call with a missing positional argument raises `TypeError`.

Modules, one per source file plus shared ones:

- Shared: `Wrappers`, `Python`, `Seqs`, `Classifier`, `Streamlit` (the session state class) and
  `UserStore` (the user table class).
- Per source file: `UserManagement`, `Login`, `Register`, `ManageUsers`, `SwitchPage`,
  `VideoProcessing`, `VideoDetection`, `Utils` and `BatchImageDetection`.

The video pipeline samples by a fixed interval `int(fps / 2)`, with no rounding and no lower
bound of 1, so it is 0 below 2 fps and the first frame read raises `ZeroDivisionError`. Its
results are never re-sorted into frame-index order: they stay in thread completion order, and
the video page reports the first "不合规" result in that order.

## Model

| member | source | states |
|---|---|---|
| Python.Trunc | functions/video_processing.py:35 | `int(x)` truncates toward zero: the result has the sign of x and its magnitude is the floor of \|x\| |
| Python.Mod | functions/video_processing.py:46 | Python `%` has the sign of the divisor: in [0, b) for b > 0 and in (b, 0] for b < 0 |
| Python.ModZero | functions/video_processing.py:46 | `a % b == 0` exactly when \|b\| divides a |
| Streamlit.Initialised | pages/login.py:6-7 | an absent `logged_in_user` becomes None; a set one is kept |
| Streamlit.SessionState.InitLoggedIn | pages/register.py:9-10 | the page guard sets an absent `logged_in_user` to None and changes nothing else |
| UserStore.UserTable.Load | switch_page.py:28-29 | after `load_users`, the dict and the table hold the same rows |
| UserStore.UserTable.SaveUser | data/database.py:28-34 | `INSERT OR REPLACE`: the table maps the name to the new hash, and every other row is kept |
| UserManagement.NameCharRun | user_management.py:11 | the greedy run of `[a-zA-Z0-9_]`: every character in it matches, and the next one does not |
| UserManagement.ValidateUsername | user_management.py:11 | true iff the name is 3 to 20 letters, digits or underscores, optionally followed by one final "\n" (Python `$`) |
| UserManagement.UsernameLength | user_management.py:11 | an accepted name has 3 to 21 characters, the 21st only as a trailing "\n"; shorter or longer names, including "", are rejected |
| UserManagement.TrailingNewlineAccepted | user_management.py:11 | "abc\n" and a 20-character name plus "\n" are accepted; "abc\n\n", "ab\n" and "" are rejected |
| UserManagement.ValidatePassword | user_management.py:20 | `len(password) >= 8`, counted in code points; a valid password is never empty |
| UserManagement.HashPassword | user_management.py:29 | the SHA-256 hexdigest of the password, a function of the password alone |
| UserManagement.PasswordUpwardClosed | user_management.py:20 | appending characters to a valid password (length at least 8) keeps it valid |
| Login.CredentialsMatch | pages/login.py:19 | the name is a key of the dict and its stored hash equals the hash of the typed password |
| Login.LoginPage | pages/login.py:4-23 | no press changes nothing. A press with a known name and matching hash sets the user and shows success. Any other press shows the error and keeps the previous user. The user table is not written |
| Register.CheckRegistration | pages/register.py:21-26 | the branch the guard chain takes: invalid name, else invalid password, else name taken, else registered |
| Register.RegisterPage | pages/register.py:7-31 | no press changes nothing. Otherwise it shows the first failing check's error and stores nothing, or on success stores name to hash in both dict and table. A dict that mirrored the table still does |
| Register.GuardOrder | pages/register.py:21-26 | a later check is reached only when the earlier ones passed; registration succeeds iff the name is valid, the password is valid and the name is free |
| Register.RegistrationKeepsExisting | pages/register.py:25-31 | no existing entry is overwritten or dropped; at most the new name is added |
| Register.RegisterThenLogin | pages/register.py:21-31 | a registered name satisfied both rules, and its owner's credentials then match at login |
| ManageUsers.ManageUsersPage | pages/manage_users.py:7-33 | the page first writes "当前用户: " and the user's name. A non-empty new password is stored in dict and table, inserted if absent; an empty one only shows the error. Delete raises KeyError for an absent user. Otherwise it removes the dict entry and then raises TypeError: the table keeps the row, the session keeps the user, and dict and table no longer agree |
| ManageUsers.DeleteAccount | pages/manage_users.py:28-32 | corrected delete: KeyError with nothing changed for an absent user; otherwise the user leaves both dict and table, is logged out, the success message is shown, and dict and table stay in sync |
| ManageUsers.DeleteAsWrittenExample | pages/manage_users.py:29-31 | deleting a logged-in, registered "alice" as written raises TypeError, keeps her database row and session, and leaves dict and table out of sync |
| ManageUsers.DeleteCorrectedExample | pages/manage_users.py:29-32 | the same deletion through the corrected branch: no exception, logged out, row gone, dict and table in sync |
| ManageUsers.ChangeThenLogin | pages/manage_users.py:19-22 | after a password change the user logs in with the new password; every other user's login is unaffected |
| SwitchPage.PageOptions | switch_page.py:46-65 | the option list for either login status is never empty, so `page_options[0]` exists |
| SwitchPage.NormalisePage | switch_page.py:47-48 | the page is kept when offered, otherwise reset to the first option; either way it is offered |
| SwitchPage.IndexOf | switch_page.py:49 | `list.index`: the first position holding the page |
| SwitchPage.Dispatch | switch_page.py:52-75 | logged out, "登录" goes to login and anything else to register; logged in, a handler exists exactly for the five offered pages |
| SwitchPage.InitSession | switch_page.py:37-40 | an absent page becomes "登录" and an absent user None; set values are kept |
| SwitchPage.Switch | switch_page.py:42-75 | the options follow the user's truthiness. The new page is the chosen option, or the normalised old page when none is chosen, and it is offered. The handler is the dispatch of that page |
| SwitchPage.OfferedPagesDispatch | switch_page.py:46-75 | every offered page has a handler; logged out only login or register is reached, logged in neither is |
| SwitchPage.KeyPairs | switch_page.py:53-60 | the text page gets key pair 1; the image, video and batch pages get key pair 2 |
| SwitchPage.FirstPageAfterLogin | switch_page.py:38-48 | a logged-in session whose page is still the default "登录" lands on the text page |
| VideoProcessing.FrameInterval | functions/video_processing.py:35 | the interval is floor(fps/2) for fps at least 0, and it is 0 exactly when \|fps\| < 2 |
| VideoProcessing.ZeroPad | functions/video_processing.py:47 | the `03d` padding has length max(\|s\|, 3) |
| VideoProcessing.FramePath | functions/video_processing.py:29-47 | `os.path.join("frames", f"frame{count:03d}.jpg")` with "/" as separator |
| VideoProcessing.FramePathRoundTrip | functions/video_processing.py:29-47 | the path of frame c is "frames/frame", at least 3 digits, then ".jpg", and it parses back to c; exactly 3 digits below 1000 |
| VideoProcessing.FramePathInjective | functions/video_processing.py:47 | distinct frame indices get distinct paths |
| VideoProcessing.Selected | functions/video_processing.py:46 | frame `count` is kept when Python `count % frame_interval` is 0 |
| VideoProcessing.SampledIndices | functions/video_processing.py:42-49 | the kept indices are in range and strictly increasing; c is kept iff c < n and `c % interval == 0` |
| VideoProcessing.JobsAt | functions/video_processing.py:47-48 | one `(frame, path)` pair per kept index |
| VideoProcessing.SampledCount | functions/video_processing.py:42-49 | for interval k ≠ 0, exactly ⌈n/\|k\|⌉ of n frames are kept, and frame 0 is the first |
| VideoProcessing.SampleFrames | functions/video_processing.py:37-49 | the read loop yields the pairs for the kept indices. Interval 0 raises ZeroDivisionError at the first frame read, and with no frame it returns the empty list |
| VideoProcessing.ProcessFrame | functions/video_processing.py:10-19 | `process_frame`: the service's verdict for the frame written to its path |
| VideoProcessing.Outputs | functions/video_processing.py:10-19 | one `process_frame` result per submitted job |
| VideoProcessing.Progress | functions/video_processing.py:58 | one progress value per result |
| VideoProcessing.ProgressIncreasing | functions/video_processing.py:56-58 | the progress values strictly increase and the last one is 1 |
| VideoProcessing.CollectResults | functions/video_processing.py:54-58 | the results are the per-job outputs in completion order, a permutation of them, with the progress values alongside |
| VideoProcessing.ProcessVideo | functions/video_processing.py:22-62 | the call returns the sampled outputs in completion order (a permutation of the outputs), or the sampling exception with no progress; `frames` is removed iff it returns normally |
| Seqs.PermutePreservesMultiset | functions/video_processing.py:54-57 | collecting results in any completion order keeps the multiset of outputs |
| Utils.DisplayVideoResults | utils.py:55-67 | the console output is three lines per result in list order. At the first None only its header is printed, then AttributeError is raised; it raises iff some result is None |
| Utils.DisplayLinesAt | utils.py:61-67 | for all-dict results: exactly 3 lines per result, "### Frame i", then the verdict, then the raw result |
| Utils.DisplayLinesNone | utils.py:61-63 | a None at position j prints the blocks before it and its header, and nothing after |
| Utils.VerdictLineMeaning | utils.py:63-66 | a frame is reported inappropriate iff its conclusion is "不合规"; a missing or other conclusion is reported normal |
| Utils.Count | utils.py:138 | `list.count(x)` is the multiplicity of x |
| Utils.PieSizes | utils.py:137-138 | sizes[i] counts the entries equal to label i, with the labels fixed as ["合规", "不合规"] |
| Utils.PieSizesBounded | utils.py:138 | the two sizes add up to at most the list length, and to exactly it iff every entry is one of the two labels |
| VideoDetection.VerdictLoop | pages/video_detection.py:34-40 | one "视频正常" per result before the first None or "不合规" result. A "不合规" result adds the error and its raw result, then stops; a None raises AttributeError |
| VideoDetection.VerdictSummary | pages/video_detection.py:34-40 | all-dict results never raise. With no "不合规" there are exactly len(results) successes. Otherwise the successes before the first "不合规" are followed by its error and raw result. At most one error is shown |
| VideoDetection.DetectionOutcomes | pages/video_detection.py:31-43 | an empty result list shows no verdict; a pipeline exception or any None result shows only the failure message |
| VideoDetection.ReportResults | pages/video_detection.py:33-43 | after `video_processing` returns: the per-frame console lines, then the verdict messages, or one failure message when a None result raises |
| VideoDetection.VideoDetectionPage | pages/video_detection.py:21-43 | with no upload nothing is shown. Otherwise it shows the optional video and the heading. A run that returns then shows one progress bar per result, then either the verdict messages or the single failure message; a run that raises shows only the failure message. The console holds the per-frame lines |
| BatchImageDetection.BatchImageDetectionPage | pages/batch_image_detection.py:21-41 | the page shows the images' blocks in upload order, and nothing when no image is uploaded |
| BatchImageDetection.ImageVerdict | pages/batch_image_detection.py:28-41 | each image's block holds exactly one of the page's own verdict messages, decided by that image's own result |
| BatchImageDetection.BatchVerdictsStep | pages/batch_image_detection.py:23-41 | the last image adds exactly its own verdict after those of the images before it |
| BatchImageDetection.BatchVerdicts | pages/batch_image_detection.py:23-41 | the verdicts are one per image, in upload order; a failure for one image does not affect the others |
| BatchImageDetection.BatchAppend | pages/batch_image_detection.py:23 | the page's output is the concatenation of the per-image blocks |
| BatchImageDetection.OutcomeMeaning | pages/batch_image_detection.py:34-41 | an image is bad iff its result is a dict with conclusion "不合规", and failed iff the result is None; a dict without a conclusion is normal |

## Left out

- Network code: `get_access_token`, `image_processing`, `text_processing` and their HTTP calls are not modelled. The service is a function parameter that returns a response or None.
- `get_file_content_as_base64` and the `@st.cache_data` memoisation are not modelled: one is file reading plus library encoding, the other is framework caching.
- OpenCV, the file system and temporary files:
  - Decoding, `cv2.imwrite` and `os.makedirs` are not modelled. The video is a sequence of frames, the page's upload is an optional `Video`, and removing the directory is a flag.
  - `os.path.join` is taken with "/" as separator.
- Thread pool concurrency: only its effect is modelled, as a completion order that permutes the jobs.
- Floating point: fps is a `real`, not an IEEE double.
- Response values: the JSON values are kept as strings.
- SHA-256: the hash is a parameter, so equal passwords give equal hashes by construction.
- SQLite and configuration: `config/config.py` and the SQLite calls are not modelled beyond `save_user`'s insert-or-replace effect on the table.
- Static rendering: the page titles, fixed headings, sidebar title, CSS, `st.experimental_rerun` and `logging` calls are not modelled. Neither is `Image.open` in the batch page raising outside the `try`.
- Other `utils.py` code: the pie chart drawing, e-mail, gettext, logging setup and `save_uploaded_file` are not modelled.
- `pages/image_detection.py` and `pages/text_detection.py` are not part of this model. They apply the same conclusion test that `BatchImageDetection` models.
- `functions/video_processing.py:65-84` (`main`) is not modelled: it is a stand-alone demo page.
- BatchImageDetection.ImageVerdict: the messages `image_processing` shows itself (its token and request errors, such as "Request failed: …" and "无法获取访问令牌。" before a failed image's own failure message) are not in the modelled output, because the service is a parameter returning only a response or None. The same holds for the service's messages on the video page.
- ManageUsers.ManageUsersPage: requires a named user in the session, because `switch_page` dispatches to this page only when `logged_in_user` is truthy.
- SwitchPage.Switch: requires the sidebar choice to be an index into the current options, because the selectbox offers nothing else.

## Findings

| source | as written | input that shows it | evidently intended | confidence | as-written member | corrected member |
|---|---|---|---|---|---|---|
| pages/manage_users.py:30 | `save_user(registered_users)` passes one argument to `save_user(username, hashed_password)` (data/database.py:28). It raises TypeError after the dict entry is deleted, so the database keeps the row and the session keeps the user | user "alice" registered and logged in, "删除账户" pressed | remove the user from both dict and database, log out, show "账户删除成功！" | not executed | ManageUsers.DeleteAsWrittenExample | ManageUsers.DeleteAccount |
