# ONLYOFFICE header menu and mailing-list popup, modelled in Dafny

This project models the logic of three React components of the ONLYOFFICE
navigation package:

- the footer's mailing-list popup (`MailPopup`): the email and first-name
  validators, and the form state that the email-input, name-input, submit and
  close handlers update;
- the header menu (`HeaderMenu`): the default locale, the site URL prefix
  `hrefLang` built from a per-locale table, and the translation function `t`
  with its fallback from the locale's table to English to the key;
- the resources section of the menu (`ResourcesMenu`): the blog URL
  `blogHrefLang` built from a second per-locale table, and the choice between
  the Chinese plugin competition block and the second blog card.

Files:

- `js_values.dfy` (module `JsValues`): the JavaScript semantics the menu code
  relies on: `undefined` as `Option`, property lookup on an object literal,
  `??`, and the truthiness behind `||` on strings.
- `mail_popup.dfy` (module `MailPopup`): the validators and the class
  `PopupState`. `emailIsValid` is a regular-expression test. It is modelled as a
  deterministic automaton. Lemmas prove that the automaton accepts exactly the
  strings the expression `^[^\s@]+@[^\s@]+\.[^\s@]+$` matches, and then
  characterise that language in plain terms. `PopupState` holds the nine state
  cells of the component plus the parent's `popupIsOpen`. Its class invariant
  `Valid()` says that each validity flag equals its validator applied to the
  current field. Every handler keeps that invariant, and its frame names the
  cells it may write.
- `header_menu.dfy` (module `HeaderMenu`) and `resources_menu.dfy` (module
  `ResourcesMenu`): the locale functions as pure functions over strings and
  maps. Each URL function is also characterised independently of its table:
  `hrefLang` uses the same key as the translation lookup, and the blog uses
  the regional variant of the same language. Lemmas say exactly when two
  locales share a URL.

Both locale tables apply their default with `??`, so an entry mapped to `""`
yields the bare root and does not fall through to `"/" + locale`; the model
keeps this (`HrefLangValues`, `BlogHrefLangValues`).

Closing the popup does not restore its initial state completely: the email
message (`emailErrorText`) and the loading flag keep their values, as
`HandleCloseForm` states. The whitespace class `\s` of the email test is the
ECMAScript one, the WhiteSpace and LineTerminator code points, written out in
`IsWs`.

## Model

| member | source | states |
|---|---|---|
| `MailPopup.EmailIsValid` | src/footer-menu/sub-components/mail-popup/index.jsx:31-33 | the test accepts a string exactly when `^[^\s@]+@[^\s@]+\.[^\s@]+$` matches it: a non-empty `[^\s@]` local part, `@`, then a domain that splits at a `.` into two non-empty `[^\s@]` runs |
| `MailPopup.RunFromStart` | src/footer-menu/sub-components/mail-popup/index.jsx:32 | the automaton used by the test reaches its accepting state on a string exactly when the regular expression matches it (proved state by state by induction on the string) |
| `MailPopup.EmailIsValidShape` | src/footer-menu/sub-components/mail-popup/index.jsx:31-33 | an address is valid exactly when it has no whitespace, exactly one `@`, something before the `@`, and after it a `.` that is neither the first nor the last character of that part |
| `MailPopup.EmailNeedsAtAndDot` | src/footer-menu/sub-components/mail-popup/index.jsx:31-33 | a string with no `@` or with no `.` is never a valid address |
| `MailPopup.LocalAtDomainDotSuffix` | src/footer-menu/sub-components/mail-popup/index.jsx:31-33 | every `local@domain.suffix` whose three parts are non-empty and free of whitespace and `@` is valid |
| `MailPopup.NameIsValid` | src/footer-menu/sub-components/mail-popup/index.jsx:35-37 | a first name is accepted exactly when it is not empty |
| `MailPopup.ValidatorsRejectEmpty` | src/footer-menu/sub-components/mail-popup/index.jsx:31-37 | both validators reject the empty field: an empty email and an empty first name are invalid |
| `MailPopup.SampleAddresses` | src/footer-menu/sub-components/mail-popup/index.jsx:31-33 | `jane@example.com` passes the email test and `not-an-email` does not |
| `MailPopup.PopupState.constructor` | src/footer-menu/sub-components/mail-popup/index.jsx:21-29 | a new popup has empty fields, every flag false, the "email is empty" message preselected, and satisfies the flag invariant |
| `MailPopup.PopupState.Screen` | src/footer-menu/sub-components/mail-popup/index.jsx:113-137 | the confirmation panel is shown exactly when the form is complete, otherwise the form with an error line per raised error flag (the email line carrying the stored message) and the button disabled while loading |
| `MailPopup.PopupState.HandleEmailInput` | src/footer-menu/sub-components/mail-popup/index.jsx:39-42 | stores the typed email and sets its flag to the validator's verdict on it; writes nothing else (no error flag, message, loading or completion change) and keeps the invariant |
| `MailPopup.PopupState.HandleNameInput` | src/footer-menu/sub-components/mail-popup/index.jsx:44-48 | stores the typed first name and sets its flag to the validator's verdict on it; writes nothing else and keeps the invariant |
| `MailPopup.PopupState.HandleFormSubmit` | src/footer-menu/sub-components/mail-popup/index.jsx:50-88 | each error flag becomes "flag false or field empty", which under the invariant is just "field invalid"; the message is "empty" exactly for an empty email; a request carrying exactly the endpoint, first name, email and subscription type is sent iff both flags hold; completion is reached only on status 200; loading is false once an attempt ends; a refused attempt leaves loading and completion unchanged; fields and flags are not written |
| `MailPopup.PopupState.HandleCloseForm` | src/footer-menu/sub-components/mail-popup/index.jsx:90-102 | clears completion, both validity flags, both error flags and the parent's open flag, empties both fields, keeps the invariant, leaves the message and the loading flag as they were, and shows the bare form again |
| `HeaderMenu.CurrentLocale` | src/header-menu/header-menu.jsx:30 | the locale is the `locale` property when that is truthy, and "en" when it is missing or empty; it is never empty |
| `HeaderMenu.TranslationKey` | src/header-menu/header-menu.jsx:34 | `t` looks "zh-hans" up under "zh" and "pt-br" under "pt", and every other locale under itself; the key is always a prefix of the locale |
| `HeaderMenu.HrefLang` | src/header-menu/header-menu.jsx:33 | the prefix always starts with the site root; it is the bare root for en, el, hi, ar, sr and hy, and otherwise the root, "/" and the locale's translation key |
| `HeaderMenu.HrefLangValues` | src/header-menu/header-menu.jsx:33 | the table entries mapped to "" give the bare root, "zh-hans" gives "/zh", "pt-br" gives "/pt", and any locale outside the table gives "/" + itself |
| `HeaderMenu.HrefLangSharedExactly` | src/header-menu/header-menu.jsx:33-34 | two locales get the same prefix exactly when both are root locales, or neither is and they share a translation table |
| `HeaderMenu.DefaultLocale` | src/header-menu/header-menu.jsx:30-33 | a missing or empty `locale` property gives "en" and the bare site root |
| `HeaderMenu.Translate` | src/header-menu/header-menu.jsx:34 | requires the locale's table, and the English table when the fallback reaches it (the component fails otherwise); the text is the locale's entry, the English entry or the key, and never empty for a non-empty key |
| `HeaderMenu.TranslateFallback` | src/header-menu/header-menu.jsx:34 | the locale's entry when present and non-empty, else the English entry when present and non-empty, else the key |
| `HeaderMenu.TranslateZhHans` | src/header-menu/header-menu.jsx:34 | wherever `t` does not fail for "zh", "zh-hans" translates every key exactly as "zh" |
| `HeaderMenu.TranslatePtBr` | src/header-menu/header-menu.jsx:34 | wherever `t` does not fail for "pt", "pt-br" translates every key exactly as "pt" |
| `ResourcesMenu.BlogLocale` | src/header-menu/sub-components/menu-items/resources-menu/index.jsx:22 | the blog's locale extends the site locale to its regional variant and is translated from the same table |
| `ResourcesMenu.BlogHrefLang` | src/header-menu/sub-components/menu-items/resources-menu/index.jsx:22 | the blog URL always starts with the blog root; it is the bare root for en and ru, and otherwise the root, "/" and the blog locale |
| `ResourcesMenu.BlogHrefLangValues` | src/header-menu/sub-components/menu-items/resources-menu/index.jsx:22 | "en" and "ru" give the bare blog root, "zh" gives "/zh-hans", "pt" gives "/pt-br", and any locale outside the table gives "/" + itself |
| `ResourcesMenu.BlogVariantsShareUrl` | src/header-menu/sub-components/menu-items/resources-menu/index.jsx:22 | "zh" and "zh-hans" get the same blog URL, and so do "pt" and "pt-br" |
| `ResourcesMenu.BlogHrefLangSharedExactly` | src/header-menu/sub-components/menu-items/resources-menu/index.jsx:22 | two locales get the same blog URL exactly when both are blog-root locales, or neither is and they have the same blog locale |
| `ResourcesMenu.PromoFor` | src/header-menu/sub-components/menu-items/resources-menu/index.jsx:63-77 | exactly one block is chosen; the competition block is chosen exactly for "zh" and "zh-hans", the locales translated from the "zh" table |
| `ResourcesMenu.PromoFollowsBlogSection` | src/header-menu/sub-components/menu-items/resources-menu/index.jsx:22-77 | the competition block is shown exactly when the blog link points at the Chinese section |

## Left out

- MailPopup.PopupState.HandleFormSubmit: the request is sent and answered within one step. The time while the request is outstanding is not a state of the model. In the component, `isLoading` is true and the submit button disabled during that time, and other handlers can run.
- The `fetch` call, its JSON serialisation and the `console.error` on a rejected request are network I/O and logging. The handler returns the request it would send as a `Request` value, and takes the outcome as a parameter: `Response(status)` or `TransportFailure`.
- React details are not modelled: state captured by a render closure, batched state updates, and a response that arrives after the popup was closed or unmounted. Each handler is one atomic update of the state. The preventDefault call on the submit event is left out too.
- Translated strings are opaque tokens. The two email messages are `EmailEmpty` and `EmailIncorrect`. The other texts of the popup and the menu are presentation.
- The translation tables are an abstract `map<string, map<string, string>>`. Their contents are not part of this model.
- JSX markup, CSS class strings, `next/link`, the phone link, the click routing through `stopPropagation` and the other menu sections are presentation only.
- The `window.innerWidth <= 1024` check, the `hidden` class and the `navHidden` state depend on the browser. The header only passes them through.
- In JavaScript, a locale that names an inherited object member (such as "toString" or "__proto__") would find that member in an object-literal table. The model's tables are plain maps, so such names are treated as missing keys.
- The model's strings are sequences of Unicode code points, while JavaScript strings are UTF-16 code units. A JavaScript string can also hold a lone surrogate, which no model string can. For every well-formed string the model gives the same verdicts, because the name check only compares a length with zero, and both halves of a surrogate pair fall in `[^\s@]`, like the code point they encode.
- A `locale` property of another falsy kind (`null`, `false`, `0`) is modelled as the missing value `None`.
- HeaderMenu.Translate: the cases where `t` throws are excluded by its requires rather than modelled as an error result. These are a normalised locale with no table, and a fallback that reaches a missing English table.
