# Portfolio site: contact-form, theme and scroll-spy logic in Dafny

This project models the small amount of sequential logic in a single-page portfolio site (`src/App.js`). Everything else in that file is declarative rendering of static content. The modelled pieces are:

- **`callApiWithRetry`** (module `Retry`). It makes up to `retries` attempts at a request and returns the parsed body of the first `ok` response. A non-`ok` response, or a rejected `fetch` or `response.json()`, counts as a failed attempt. Each failed attempt `i` is followed by a sleep of `delay * 2^i`, including the last one. When every attempt has failed, the call throws. The network is an oracle: a sequence `attempts` whose `i`-th entry (`Ok(body)`, `NotOk` or `Throws`) is what attempt `i` yields. The method returns the real outcome. Two ghost out-parameters record the number of attempts made and the log of backoff delays.
- **Reply extraction** (module `Reply`). It follows the optional chain `candidates[0].content.parts[0].text` through the generative-text response. If any step is missing or an array is empty, it falls back to a fixed acknowledgment.
- **The contact form** (module `ContactForm`, class `ContactFormState`). The class holds `formData`, `isSubmitting`, `message` and `isError`.
  - `HandleChange` updates one field.
  - `HandleSubmit` clears the feedback and calls the retry helper with its defaults (5 attempts, base delay 100). On success it shows the extracted reply and resets the form. On failure it shows the fixed failure notice and keeps the form. In both cases it ends with `isSubmitting` false.
  - The awaited network call is collapsed into one method call. `HandleSubmit` returns, as ghost values, the feedback shown while the request is pending and the two form fields the prompt embeds.
- **The theme** (module `Theme`, and class `App` in module `Portfolio`). The initial theme is `getItem('theme') || 'light'`. A toggle maps `light` to `dark` and every other value to `light`. The toggle writes the new value into the key-value store, which is modelled as a `map` field.
- **Scroll-spy** (module `ScrollSpy`, and `App.HandleScroll`). At the bottom of the page (`innerHeight + scrollY >= bodyHeight - 2`) the active section is `contact`. Otherwise it is the first section, in the order of the handler's list (about, education, experience, projects, skills, contact), which is not the order the sections appear on the page, whose element exists and for which `offsetTop - 150 <= scrollY < offsetTop - 150 + offsetHeight` holds. If no section qualifies, the active section is left unchanged.

Behaviour of the code a reader might not expect:
- The reply text itself is not checked. An empty `text` becomes the message as it is and does not fall back to the default. The page then shows no feedback at all, because the feedback box is drawn only for a non-empty message.
- Nothing in `handleSubmit` checks the required fields. The browser enforces them.
- The theme store can hold any string. An empty stored string gives `light`, because `||` treats it as false.
- Toggling from a string other than `light` or `dark` gives `light`.

The browser, `fetch`, timers and `localStorage` become parameters, oracles or fields:
- The viewport and the element geometry are inputs of `HandleScroll`.
- The response of each attempt is an entry of the `attempts` sequence.
- Sleeps are recorded delays.
- Local storage is the `store` map.

## Model

| member | source | states |
|---|---|---|
| `Retry.CallApiWithRetry` | src/App.js:405-419 | The call throws "All retries failed to connect to the API." exactly when none of the first `max(retries, 0)` attempts is `ok`; with `retries <= 0` no attempt is made and it throws at once. In that case exactly that many attempts were made, the sleeps were `delay*2^0 … delay*2^(n-1)`, and they total `delay*(2^n - 1)`. Otherwise it returns the body of the first `ok` attempt `k`, after `k+1` attempts and exactly the `k` sleeps `delay*2^0 … delay*2^(k-1)`, which total `delay*(2^k - 1)`. |
| `Retry.FirstOk` | src/App.js:406-411 | Gives the index of the first successful attempt: it is `ok` and every earlier attempt is not. It gives none exactly when no attempt is `ok`. |
| `Retry.Backoff` | src/App.js:406-416 | `n` failed attempts give a schedule of exactly `n` sleeps, one per failure. |
| `Retry.BackoffAt` | src/App.js:416 | The sleep after failed attempt `i` is `delay * 2^i`, for every `i` below the number of failures. |
| `Retry.BackoffTotal` | src/App.js:416 | `n` consecutive backoff sleeps add up to the geometric sum `delay * (2^n - 1)`. |
| `Retry.ThreeFailuresSleep700` | src/App.js:405-416 | Three failing attempts with base delay 100 sleep 100 + 200 + 400 = 700 in all. |
| `Reply.ExtractReply` | src/App.js:464-469 | Gives `candidates[0].content.parts[0].text` exactly when `candidates` is present and non-empty, `candidates[0].content` is present, and `content.parts` is present and non-empty. In every other case it gives the fixed default acknowledgment. |
| `Reply.ExtractOfSingleReply` | src/App.js:464-468 | For a response with one candidate and one part, the message is exactly that part's text, whatever it is. An empty text stays empty and does not fall back to the default; the page then draws no feedback box. |
| `ContactForm.FormData.With` | src/App.js:435 | The spread update sets the named field to the new value and leaves the other three fields as they were. |
| `ContactForm.WithUndone` | src/App.js:433-436 | Editing a field and then typing its previous value back restores the original form record. |
| `ContactForm.ContactFormState.constructor` | src/App.js:423-431 | The form starts with four empty fields, no submission in flight, an empty message and no error. |
| `ContactForm.ContactFormState.HandleChange` | src/App.js:433-436 | Only the edited field takes the new value. The other fields and the feedback flags are unchanged. |
| `ContactForm.ContactFormState.HandleSubmit` | src/App.js:438-481 | While the request is pending, the feedback is submitting, with an empty message and no error. The prompt embeds the name and message held at submit time. If any of the 5 attempts succeeds, the message is the reply extracted from the first successful body, there is no error and all four fields are empty. Otherwise `isError` is set, the message is the fixed failure notice and the form is unchanged. Either way `isSubmitting` ends false. |
| `Theme.InitialTheme` | src/App.js:22 | The initial theme is the stored value when it is present and non-empty, and `light` otherwise. It is never empty. |
| `Theme.Toggle` | src/App.js:35 | The result is always `light` or `dark`, and it is `dark` exactly when the previous theme was `light`. |
| `Theme.ToggleTwice` | src/App.js:33-39 | Two toggles from `light` or `dark` return the original theme. From any other stored string, two toggles end on `dark`. |
| `Theme.ToggleSurvivesReload` | src/App.js:22-36 | After a toggle has been written to the store, the next page load starts with the toggled theme. |
| `Portfolio.App.constructor` | src/App.js:22-31 | On first render the theme is read from the store (`light` if the stored value is missing or empty), and the highlighted section is `about`. |
| `Portfolio.App.ToggleTheme` | src/App.js:33-39 | The new theme is the toggled old one and is stored under `theme`. No other stored key changes, and the active section is untouched. |
| `Portfolio.App.HandleScroll` | src/App.js:50-78 | The active section becomes the selected section, or stays as it was when none is selected. At the bottom of the page it is `contact`. The theme and the store do not change. |
| `ScrollSpy.Rank` | src/App.js:51 | Each section's position in the fixed order about, education, experience, projects, skills, contact. |
| `ScrollSpy.FirstHit` | src/App.js:59-70 | Gives the first section in the list that has an element and whose shifted band contains `scrollY`. It gives none exactly when no section qualifies. |
| `ScrollSpy.SelectSection` | src/App.js:50-71 | At the bottom of the page the result is `contact`. Otherwise it selects a qualifying section that no earlier section precedes in the order of the handler's list (about, education, experience, projects, skills, contact), which is not the order the sections appear on the page. It selects nothing exactly when no section qualifies. |

## Left out

- JSX rendering, the static content tables, the Navbar, NavLink, HeroSection and Footer markup, and the CSS classes: these are presentation only.
- `tailwind.config.js`: build configuration with no logic.
- `scrollToSection` and the theme effect that adds or removes the `dark` class on the document element: DOM calls with no state of the component's own.
- `fetch`, the endpoint URL, the API key, `JSON.stringify` and the `console` logging are foreign I/O. The network is the `attempts` oracle, and each entry marks whether `response.json()` resolved.
- The exact prompt wording is left out. The model records only that the prompt is built from the form's `name` and `message`.
- `setTimeout`, `async`/`await` scheduling and React re-rendering: sleeps are recorded delays, an awaited call is a single method call, and state updates are direct field writes. As a result, stale closures over `formData` during rapid typing are not modelled.
- Double submission while a request is in flight is not modelled. The page only disables the button, and the model's submit is atomic.
- The browser's `required` validation of name, email and message happens before `handleSubmit` runs, so the model places no requirement on it.
- A part without a `text` property is not modelled. The handler would store `undefined` as the message.
- Reply extraction on JSON shapes the type does not express is not modelled. A `null` body, a `null` `candidates[0]` or a `null` `parts[0]` makes property access throw, and the catch turns that into the failure notice. A non-array `candidates` (a string, number, boolean or plain object) usually fails the guard instead and gives the default reply; only an array-like object with a positive `length` and no entry 0 throws.
- `Retry.CallApiWithRetry`: `delay * 2 ** i` is JavaScript floating point, and the model uses unbounded integers. A fractional `retries` is also not modelled.
- `ScrollSpy.SelectSection`: `scrollY` can be fractional in browsers, but the geometry is modelled as integers.
- The `window` scroll-listener registration and its removal on unmount are left out. `HandleScroll` stands for both the call at mount and each scroll event.
