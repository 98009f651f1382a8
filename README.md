# Rowe Environmental site script, modelled in Dafny

The site's single browser script wires small behaviours to page elements: a mobile
menu toggle, a rotating background slideshow, scroll-driven visual states (navbar,
mobile bottom bar, back-to-top button, scroll indicator), smooth in-page anchor
scrolling, a contact form with validation and a simulated send, a live phone-number
mask, phone-number capture for `tel:`/`sms:` link analytics, a lazy-loading pass over
images and a one-shot fade-in observer. This project lifts each of those pieces of
logic out of the DOM plumbing and states and proves what it does.

One module per feature, one file each:

- `common.dfy` — `Option` and `Min`.
- `phone_format.dfy` (`PhoneFormat`) — the phone mask: digits kept, output alphabet and shape, idempotence.
- `contact_form.dfy` (`ContactForm`) — required-field and phone-pattern validation, and a `Form` class for the submit button's Idle → Sending → Idle lifecycle; the 1500 ms timer is the explicit `Complete` step.
- `slideshow.dfy` (`Slideshow`) — a `Rotator` class over an array of `active` flags; `ShowSlide` clears and sets them in a loop, `NextSlide` advances the index modulo the slide count.
- `mobile_menu.dfy` (`MobileMenu`) — the two `active` flags as a value and as a `Menu` class whose methods are the three click listeners.
- `scroll_effects.dfy` (`ScrollEffects`) — the four scroll listeners as functions of the page state, the offset and the viewport width, composed by `OnScroll`, including the one-shot scroll-indicator listener and its 300 ms hide step.
- `anchor_scroll.dfy` (`AnchorScroll`) — the anchor click decision and the target offset rule.
- `contact_links.dfy` (`ContactLinks`) — `indexOf`, first-occurrence `replace` and `split('?')[0]`, and the numbers captured from `tel:` and `sms:` links.
- `lazy_images.dfy` (`LazyImages`) — the lazy-loading loop over an array of attribute maps.
- `fade_in.dfy` (`FadeIn`) — an `Observer` class with the observed set and the set of elements carrying `fade-in`.

Three behaviours of the script that are easy to misread:

- The required-field check is `!data.name || !data.phone || !data.message`. It rejects only absent or empty values and does not trim, so fields holding only spaces pass (`ContactForm.BlankFieldsAccepted`).
- The script never calls `showSlide(0)` at load. The slides' `active` flags start as the markup has them, and the first call of `NextSlide` moves to slide 1 (mod n).
- The scroll indicator's listener is registered with `{ once: true }`. It runs on the FIRST scroll event whatever the offset, so the indicator fades only if that first offset exceeds 200 (`ScrollEffects.IndicatorOneShot`).

JavaScript's `\d` (no `u` flag) is modelled as `0`–`9`. `\s` is modelled as the full list of ECMAScript WhiteSpace and LineTerminator code points.

## Model

| member | source | states |
|---|---|---|
| `PhoneFormat.Digits` | script.js:290 | the stripped value consists of digits only and is no longer than the input |
| `PhoneFormat.DigitsOfChar` | script.js:290 | on one character, stripping keeps a digit and drops any other character |
| `PhoneFormat.DigitsAppend` | script.js:290 | stripping a concatenation is the concatenation of the stripped parts; with `DigitsOfChar` this fixes the result on every string: every digit kept, in order |
| `PhoneFormat.DigitsOfDigits` | script.js:290 | stripping non-digits from a string of digits leaves it unchanged |
| `PhoneFormat.Render` | script.js:293-301 | the mask over a digit string is at most 14 characters, empty exactly for no digits, otherwise opens with `(`, and uses only digits and `(`, `)`, space, `-` |
| `PhoneFormat.Format` | script.js:289-304 | the formatted value is at most 14 characters, is empty exactly when the input has no digit, and otherwise starts with `(` |
| `PhoneFormat.KeptDigits` | script.js:297-299 | the digits the mask keeps are digits and at most ten of them |
| `PhoneFormat.FormatKeepsDigits` | script.js:290-299 | the digits of the output are exactly the first min(n, 10) digits of the input, in order |
| `PhoneFormat.FormatAlphabet` | script.js:293-301 | every output character is a digit or one of `(`, `)`, space, `-` |
| `PhoneFormat.FormatShape` | script.js:293-301 | no digits give `""`; 1–3 give `(`+d; 4–6 give `(`+d[0..3]+`) `+d[3..]; 7 or more give `(`+d[0..3]+`) `+d[3..6]+`-`+d[6..10] |
| `PhoneFormat.FormatIdempotent` | script.js:289-304 | formatting an already formatted value leaves it unchanged |
| `PhoneFormat.FormatOfDigitString` | script.js:289-304 | on a value holding only digits, the formatter applies the mask to the value itself |
| `PhoneFormat.FormatTenDigits` | script.js:299 | `5551234567` becomes `(555) 123-4567` |
| `PhoneFormat.FormatTwoDigits` | script.js:295 | `55` becomes `(55` |
| `PhoneFormat.FormatSevenDigits` | script.js:299 | `5551234` becomes `(555) 123-4` |
| `PhoneFormat.FormatNoDigits` | script.js:290-303 | an input with no digit empties the field |
| `ContactForm.MatchesPhonePattern` | script.js:124-125 | the regular expression accepts exactly the non-empty strings whose every character is a digit, whitespace, `-`, `+`, `(` or `)` |
| `ContactForm.Validate` | script.js:117-128 | `MissingField` exactly when name, phone or message is absent or empty; otherwise `InvalidPhone` exactly when the phone fails the pattern; otherwise accepted |
| `ContactForm.Entries` | script.js:114-115 | the form data holds exactly the three named fields with the given values |
| `ContactForm.FormattedPhonePasses` | script.js:124-125 | every non-empty output of the phone mask passes the phone check |
| `ContactForm.FormattedEntriesAccepted` | script.js:117-128 | a name, a message and a masked phone with at least one digit are accepted |
| `ContactForm.BlankFieldsAccepted` | script.js:118 | no trimming: three fields of spaces pass both checks |
| `ContactForm.LetterInPhoneRejected` | script.js:124-128 | with name and message present, an ASCII letter (`a`-`z` or `A`-`Z`) anywhere in the phone gives `InvalidPhone` |
| `ContactForm.Form.constructor` | script.js:107-109 | the form starts with its default values and an enabled button with its own text, nothing pending |
| `ContactForm.Form.Input` | script.js:114-115 | editing a control other than the phone changes that one entry of the data the submit reads, and nothing else |
| `ContactForm.Form.InputPhone` | script.js:287-304 | typing in the phone field stores the masked value and touches nothing else |
| `ContactForm.Form.Submit` | script.js:110-134 | the verdict is `Validate` of the fields; a rejection changes nothing; acceptance saves the text, shows `Sending...` and disables the button, fields untouched |
| `ContactForm.Form.Complete` | script.js:136-143 | resets the fields to their defaults, restores exactly the saved text and re-enables the button |
| `ContactForm.SubmitLifecycle` | script.js:110-143 | on a fresh form with a name, a message and a masked phone, the submit is accepted, the button shows `Sending...` disabled, and completion brings back the original text, enabled, with the default fields |
| `Slideshow.Advance` | script.js:48 | the next index is below n, is i + 1 except after the last slide, where it is 0 |
| `Slideshow.AdvanceTimesIsMod` | script.js:37-54 | after k advances from slide 0 the index is k mod n |
| `Slideshow.OneHotExactlyOne` | script.js:39-45 | the flags `showSlide(i)` leaves have exactly one active slide |
| `Slideshow.Rotator.constructor` | script.js:36-54 | the index starts at 0 and the interval is scheduled exactly when there are slides |
| `Slideshow.Rotator.ShowSlide` | script.js:39-45 | afterwards exactly slide `index` is active |
| `Slideshow.Rotator.NextSlide` | script.js:47-54 | the index becomes `Advance` of the old one, stays in [0, n), and exactly that slide is active |
| `MobileMenu.Toggled` | script.js:9-12 | a toggle click changes the flags, and keeps them equal exactly when they were equal |
| `MobileMenu.AfterDocumentClick` | script.js:25-30 | a click inside the menu or the toggle leaves the flags; a click outside both clears them |
| `MobileMenu.Click` | script.js:8-30 | one click: toggle flips both flags, a link or an outside click closes, elsewhere in the menu nothing changes |
| `MobileMenu.ToggleTwiceRestores` | script.js:9-12 | two toggle clicks restore the flags |
| `MobileMenu.CloseIdempotent` | script.js:17-30 | closing twice is closing once |
| `MobileMenu.RunSnoc` | script.js:8-30 | the flags after a sequence of clicks are its clicks folded in order |
| `MobileMenu.LastCloseWins` | script.js:17-30 | any sequence ending with a link or outside click leaves the menu closed |
| `MobileMenu.EqualFlagsStayEqual` | script.js:8-30 | flags that start equal stay equal under any click sequence |
| `MobileMenu.Menu.constructor` | script.js:5-6 | the flags start as given |
| `MobileMenu.Menu.OnToggleClick` | script.js:9-12 | the new flags are `Toggled` of the old |
| `MobileMenu.Menu.OnLinkClick` | script.js:18-21 | both flags are cleared |
| `MobileMenu.Menu.OnDocumentClick` | script.js:25-30 | the new flags are `AfterDocumentClick` of the old |
| `MobileMenu.Menu.Dispatch` | script.js:8-30 | running the target's listener then the document's gives `Click` of the old flags |
| `ScrollEffects.AtLoad` | script.js:405-408 | the back-to-top button exists, hidden, exactly when the viewport was wider than 768 at load; the indicator starts listening, visible, with no hide scheduled; the navbar class and the mobile bar's transform are left as they were |
| `ScrollEffects.IndicatorAfterScroll` | script.js:322-330 | the listener is spent after one event; on that first event past 200 it fades the indicator and schedules the hide, otherwise it only unregisters; later events change nothing |
| `ScrollEffects.NavbarAfterScroll` | script.js:65-72 | the navbar is `scrolled` iff the offset exceeds 100, whatever it was before |
| `ScrollEffects.BarAfterScroll` | script.js:244-253 | with width ≤ 768 the bar is `translateY(0)` iff offset > 300 and `translateY(100%)` otherwise; with width > 768 its transform is left unchanged |
| `ScrollEffects.BackToTopAfterScroll` | script.js:392-400 | an existing button is visible iff the offset exceeds 500; an absent one stays absent |
| `ScrollEffects.OnScroll` | script.js:65-400 | one scroll event runs the navbar (65-75), mobile bar (244-256), back-to-top (392-400) and indicator (322-330) listeners, each on its own element |
| `ScrollEffects.OnHideTimer` | script.js:326-328 | the 300 ms timer removes the indicator from layout and clears the scheduled hide; its listening and faded flags, and the rest of the page, are left as they were |
| `ScrollEffects.OnScrollIdempotent` | script.js:65-400 | firing the four scroll listeners (65-75, 244-256, 322-330, 392-400) again at the same offset and width changes nothing |
| `ScrollEffects.OnScrollForgets` | script.js:65-400 | after the four scroll listeners (65-75, 244-256, 322-330, 392-400), navbar and button state, and the narrow-viewport bar, do not depend on the previous state |
| `ScrollEffects.ScrollRunSnoc` | script.js:65-400 | the state after a sequence of scroll events is its events applied in order, each running the four listeners (65-75, 244-256, 322-330, 392-400) |
| `ScrollEffects.LastScrollDecides` | script.js:65-400 | after any sequence of scrolls, navbar (65-75) and button (392-400) reflect the last offset only |
| `ScrollEffects.BackToTopPersists` | script.js:405-408 | scrolling never creates or removes the back-to-top button |
| `ScrollEffects.SpentIndicatorUnchanged` | script.js:330 | once its listener has run, scrolling never touches the indicator again |
| `ScrollEffects.IndicatorOneShot` | script.js:320-331 | from load, after any scrolls the indicator has faded and its hide is scheduled exactly when the first scroll event was past 200; scrolling alone never removes it |
| `AnchorScroll.OnAnchorClick` | script.js:81-101 | `#` and empty hrefs are not intercepted; a click is intercepted exactly when the lookup finds a target, and then the requested scroll top plus navbar height plus 20 equals the target's `offsetTop` |
| `ContactLinks.IndexOf` | script.js:197 | the result is an occurrence of the pattern with none before it, or there is no occurrence |
| `ContactLinks.ReplaceFirst` | script.js:197 | removes the first occurrence of the pattern, or leaves the string when there is none |
| `ContactLinks.BeforeQuery` | script.js:207 | the result is a prefix with no `?`, the whole string when there is no `?`, else cut at the first `?` |
| `ContactLinks.BeforeQueryKeepsPrefix` | script.js:207 | a leading prefix without `?` survives the split |
| `ContactLinks.TelNumber` | script.js:193-197 | the href with its first `tel:` removed: what precedes the first occurrence joined to what follows it, or the href unchanged when there is none; on a `tel:` link, everything after the scheme |
| `ContactLinks.SmsNumber` | script.js:203-207 | the number holds no `?`; it is the part before the first `?` with its first `sms:` spliced out (what precedes that occurrence joined to what follows it), or that part unchanged when it has none |
| `ContactLinks.SmsNumberOfSmsLink` | script.js:203-207 | on an `sms:` link the number holds no `?` and is what lies between the scheme and the first `?` |
| `ContactLinks.ReplaceOnlyFirst` | script.js:197 | only the first `tel:` is removed from `tel:tel:5` |
| `LazyImages.LazyPass` | script.js:228-233 | images 0–2 and images with a `loading` attribute are unchanged; every later image has `loading`, set to `lazy` where it was absent; no other attribute changes |
| `LazyImages.LazyPassIdempotent` | script.js:230 | a second pass changes nothing |
| `LazyImages.LazyLoad` | script.js:226-234 | the in-place loop leaves the images as `LazyPass` of their old attributes |
| `FadeIn.Intersecting` | script.js:167 | a target is in the set exactly when some entry of the batch reports it intersecting |
| `FadeIn.IntersectingSnoc` | script.js:166-171 | one more entry adds its target exactly when it is intersecting |
| `FadeIn.Observer.constructor` | script.js:175-176 | the observed set is the targets, none has faded in |
| `FadeIn.Observer.Callback` | script.js:165-172 | intersecting targets join the faded-in set and leave the observed set; nothing else changes, so fading is one-way and a faded element is never observed |

## Left out

- DOM and event wiring (`addEventListener`, `querySelector`, `classList`): handlers are functions or methods on explicit state. Bubbling is modelled only for the menu's click, in `MobileMenu.Click` and `MobileMenu.Menu.Dispatch`.
- Timers: the 5000 ms interval is a call of `NextSlide`; the 1500 ms send delay is `Form.Complete`; the 300 ms hide is `ScrollEffects.OnHideTimer`. Wall-clock time is not modelled.
- Analytics (`trackEvent`, `gtag`) and the form's second submit listener: foreign calls. Only the captured phone numbers are modelled.
- Project card click and keyboard handlers (script.js:262-280): they only emit analytics events and set `tabindex`.
- Diagnostics: `console.log` calls, the slideshow image preload logging (script.js:337-345), page performance timing (script.js:414-425) and console branding (script.js:431-442). These are logging and foreign calls.
- `alert` dialogs: they become the verdict `Form.Submit` returns and the `Complete` step.
- Back-to-top hover styles, inline CSS and click scroll; the scroll indicator's click handler; smooth scrolling itself. These are presentation only.
- The dead variables `lastScroll` and `lastScrollTop`: written, never read.
- IntersectionObserver geometry (threshold 0.1, root margin -50px): the caller reports which entries intersect. Elements are numbered, and none carries `fade-in` before the observer starts.
- Missing elements: the script's null guards are not modelled. Every element the listeners use is assumed present, except the back-to-top button and the scroll indicator, which are `Option`s.
- `ScrollEffects.OnScroll`: offsets are integers. A fractional `pageYOffset` between a threshold and the next integer is not represented. `pageYOffset || scrollTop` is modelled as one offset.
- `AnchorScroll.OnAnchorClick`: the `querySelector` lookup is a total function parameter. The `SyntaxError` it throws on an href that is not a valid selector is not modelled.
- `ContactForm.Form.Submit`: requires an enabled button, because the browser fires no submit while the form's submit button is disabled. Overlapping sends are therefore not modelled.
- Form data: the fields are one string per name. Repeated names, disabled controls and file inputs are not modelled. `reset()` restores fixed default values.
- Form controls: the `#phone` input the mask listens on (script.js:287) and the form entry named `phone` that validation reads (script.js:118) are taken to be the same control.
- `AnchorScroll.OnAnchorClick`: the result is the requested scroll position only; the browser's clamping to the scrollable range and `offsetTop` being relative to the offset parent are not modelled.
- Strings are sequences of Unicode scalar values, not UTF-16 code units. This changes nothing for the digit and character-class tests modelled here.
