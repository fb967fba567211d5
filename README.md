# Schrödinger's Coin model, in Dafny

A Streamlit page estimates a "fair" Bitcoin price. It reads scenario
assumptions from a JSON configuration whose strings may hold `{{name}}`
placeholders, which refer to the configuration's `global_settings`. Each
asset has a market cap, a monetary-premium fraction, a probability that
Bitcoin captures that premium, and a time horizon. The page discounts each
captured premium to the present at a discount rate and sums the results
into a fair market cap. It divides that by the coin supply to get a fair
price, compares the fair price with the current price, and draws a price
path.

This project models four parts of `app.py`:

- **Placeholder resolution** (`resolve_placeholders`). `pystr.dfy` models
  the Python string operations it uses. `pattern.dfy` models
  `re.findall(r"{{\s*(.*?)\s*}}", ...)` exactly: greedy whitespace, the
  lazy group, no line breaks and Python's `\s`. `resolver.dfy` models the
  substitution loop and the recursive walk over dicts and lists. The loop
  need not stop, so the model bounds it by a number of passes. The lemmas
  then name inputs on which no bound is enough.
- **The valuation** (`compute_valuations`), in `valuation.dfy`. It is a
  method with the source's `for` loop, proved against the function
  `TotalPV`. Lemmas cover bounds, monotonicity, order independence and the
  discount round trip.
- **The figures the page derives**, in `dashboard.dfy`: the upside, the
  banner it selects, the projected price path, and `main`'s choice between
  showing them and warning that there are no assets.
- **Numbers.** They are exact reals, and `**` with a whole exponent is
  `Pow`.

The Python `while` loop at app.py:34 is modelled with a fuel bound, because
it does not terminate on some inputs. `Substitute(s, ctx, fuel)` returns
one of three outcomes:

- `Done(t)` when the loop stops within `fuel` passes;
- `Failed(MissingVariable(name))` when the source raises `ValueError`;
- `Failed(OutOfFuel)` when the passes run out.

The model takes the Python call to return exactly when some bound gives an
outcome other than `OutOfFuel` (the predicate `Resolver.Terminates`). The
fuel lemmas show that all such outcomes agree, and
`Resolver.SpacedPlaceholderDiverges` names a configuration string for which
no bound is enough.

## Model

| member | source | states |
|---|---|---|
| PyStr.Contains | app.py:34 | `sub in s`; no contract of its own, see `ContainsAt`, `AbsentFirstChar` and `Resolver.Delimited` |
| PyStr.Replace | app.py:39 | `s.replace(pat, repl)`, leftmost and non-overlapping; no contract of its own, see `ReplaceIsJoinOfSplit` and `ReplaceAbsent` |
| PyStr.Split | app.py:39 | the pieces of `s.split(sep)`: at least one, the first is a prefix of `s`, and none contains the separator |
| PyStr.ReplaceIsJoinOfSplit | app.py:39 | `s.replace(pat, repl)` (leftmost, non-overlapping) equals `repl.join(s.split(pat))` |
| PyStr.JoinSplitRoundTrip | app.py:39 | joining the pieces of a split with the separator gives back the string |
| PyStr.ReplaceAbsent | app.py:39 | `replace` leaves a string without the pattern unchanged |
| PyStr.AbsentFirstChar | app.py:34 | a text whose first character is absent from `s` is not `in s` |
| PyStr.ContainsAt | app.py:34 | an occurrence at any offset makes `in` true |
| Pattern.IsSpace | app.py:35 | the characters `\s` matches, those for which `str.isspace()` holds; no contract of its own, see `SkipSpace` and the predicate `Stripped` it defines |
| Pattern.SkipSpace | app.py:35 | the greedy `\s*` run: whitespace only, and stopped at the first non-whitespace character |
| Pattern.Shape | app.py:35 | every text the regex can match at a `{{`, over all ways of splitting it into `{{`, spaces, a group without line breaks, spaces and `}}`; no contract of its own, it is the reference `MatchAt` is proved against |
| Pattern.Scan | app.py:35 | the lazy group plus the trailing `\s*}}`: a found match starts the group where asked and ends just after the `}}` that follows the group's trailing whitespace |
| Pattern.ScanSound | app.py:35 | what the scan finds has the pattern's shape, and its group is stripped |
| Pattern.ScanFinds | app.py:35 | if some text of the pattern's shape exists, the scan finds a match that ends no later |
| Pattern.MatchAtFacts | app.py:35 | the scan after the leading whitespace is sound, and finds a match whenever one exists |
| Pattern.ShapeFindsScan | app.py:35 | any text of the pattern's shape lets the scan from the leading whitespace succeed, ending no later |
| Pattern.MatchAt | app.py:35 | the regex match at a `{{`: `None` exactly when no match exists, otherwise one of the pattern's shape, the shortest, with a stripped group |
| Pattern.FindAll | app.py:35 | every name `re.findall` captures is stripped of whitespace and free of line breaks; no `{{` means no names |
| Pattern.ScanSkipsPlain | app.py:35 | the lazy group passes over characters that are neither whitespace nor braces without stopping |
| Resolver.Needle | app.py:39 | the text `{{name}}` the f-string rebuilds for a captured name; no contract of its own, see `SpacedLacksNeedle` and `ApplyOneName` |
| Resolver.HasDelimiters | app.py:34 | the `while` condition, `{{` and `}}` both in the string; no contract of its own, see `Delimited`, `Substitute` and `ResolveSettles` |
| Resolver.Pass | app.py:35-39 | one pass of the `while` body: the captured names applied in order; no contract of its own, see `ApplyNames`, `ApplyOneName` and `StuckStringLoops` |
| Resolver.ApplyNames | app.py:36-39 | the `for` loop fails exactly when some captured name is missing from the context; the error is `MissingVariable` and names a captured name the context lacks |
| Resolver.Substitute | app.py:34-39 | a string without both delimiters is returned unchanged; a finished string holds no `{{` together with `}}`; a missing-variable error names a variable the context lacks |
| Resolver.SubstituteLoop | app.py:34-39 | the source's `while`/`for` loops compute exactly `Substitute` |
| Resolver.Resolve | app.py:24-45 | resolve_placeholders; no contract of its own, see `ResolveKeepsShape`, `ResolveSettles`, `ResolveMissingSound`, `ResolveIdempotent` and `ResolveOutcomeUnique` |
| Resolver.ResolveMembers | app.py:29 | the dict comprehension; no contract of its own, see `ResolveMembersPointwise` and `MembersFuelMonotone` |
| Resolver.ResolveItems | app.py:31 | the list comprehension; no contract of its own, see `ResolveItemsPointwise` and `ItemsFuelMonotone` |
| Resolver.ResolveMembersPointwise | app.py:28-29 | the dict comprehension keeps the keys in order and resolves each value on its own; a failure is the first failing member's error |
| Resolver.ResolveItemsPointwise | app.py:30-31 | the list comprehension keeps the length and resolves each item on its own; a failure is the first failing item's error |
| Resolver.ResolveKeepsShape | app.py:28-31 | a resolved configuration has the structure of the original: same keys in the same order, same list lengths, strings for strings, other values untouched |
| Resolver.MissingOnFirstPass | app.py:35-38 | a name captured on the first pass that the context lacks makes the call raise a missing-variable error for a captured name |
| Resolver.ResolveMissingSound | app.py:37-38 | a missing-variable error from anywhere in the walk names a variable the context lacks |
| Resolver.ResolveSettles | app.py:34 | every string of a resolved configuration fails the `while` condition |
| Resolver.SettledIsFixed | app.py:34 | a configuration with no string holding both delimiters resolves to itself |
| Resolver.SettledMembersFixed | app.py:29 | the dict comprehension leaves settled members unchanged |
| Resolver.SettledItemsFixed | app.py:31 | the list comprehension leaves settled items unchanged |
| Resolver.ResolveIdempotent | app.py:24-45 | resolving a resolved configuration again, with any bound, gives it back |
| Resolver.SubstituteFuelMonotone | app.py:34-39 | more passes do not change a result reached within fewer |
| Resolver.ResolveFuelMonotone | app.py:24-45 | the same for the whole walk |
| Resolver.MembersFuelMonotone | app.py:29 | the same for the dict comprehension |
| Resolver.ItemsFuelMonotone | app.py:31 | the same for the list comprehension |
| Resolver.ResolveOutcomeUnique | app.py:24-45 | any two bounds under which the call returns give the same outcome |
| Resolver.StuckStringLoops | app.py:34-39 | a string with both delimiters that one pass leaves unchanged makes the loop run forever |
| Resolver.FindAllNeedle | app.py:35 | for a plain name (non-empty, no whitespace, no brace), `{{name}}` captures exactly `name` |
| Resolver.FindAllSpaced | app.py:35 | for a plain name (non-empty, no whitespace, no brace), `{{ name }}` also captures exactly `name` |
| Resolver.SpacedLacksNeedle | app.py:39 | for a plain name (non-empty, no whitespace, no brace), the text replaced, `{{name}}`, does not occur in `{{ name }}` |
| Resolver.ApplyOneName | app.py:36-39 | a single captured name in the context is replaced by its setting everywhere it occurs |
| Resolver.Delimited | app.py:34 | a string that opens with `{{` and closes with `}}` satisfies the `while` condition |
| Resolver.SpacedPlaceholderLoops | app.py:34-39 | `{{ x }}` with a plain name `x` (non-empty, no whitespace, no brace) defined never finishes |
| Resolver.SpacedPlaceholderDiverges | app.py:24-45 | resolve_placeholders never returns on the string `{{ x }}` with a plain name `x` (non-empty, no whitespace, no brace) defined: no bound on the passes is enough |
| Resolver.SelfReferenceLoops | app.py:34-39 | a setting named by a plain name (non-empty, no whitespace, no brace) whose value is its own placeholder never finishes |
| Resolver.ReversedDelimitersLoop | app.py:34-39 | `}}{{` never finishes: the condition holds but nothing is captured |
| Resolver.PlainPlaceholderResolves | app.py:34-39 | for a plain name (non-empty, no whitespace, no brace), `{{name}}` becomes the setting's value in one pass when that value holds no delimiters |
| Resolver.PlainPlaceholderMissing | app.py:37-38 | for a plain name (non-empty, no whitespace, no brace), `{{name}}` with `name` undefined raises the missing-variable error for `name` |
| Valuation.Pow | app.py:185 | `x ** n` for a whole exponent (also the `**` of the projection at app.py:257); no contract of its own, see `PowNonZero`, `PowPositive` and `PowGrows` |
| Valuation.PowNonZero | app.py:185 | a non-zero base gives a non-zero power, so the discount division is defined |
| Valuation.PowPositive | app.py:185 | a positive base gives a positive power |
| Valuation.PowGrows | app.py:185 | for a base of at least one, powers never shrink as the exponent grows, and strictly grow for a base above one |
| Valuation.Captured | app.py:184 | `cap_val`; no contract of its own, see `CapturedBounds` |
| Valuation.PresentValue | app.py:185 | `pv`; no contract of its own, see `DiscountRoundTrip`, `PresentValueBounds`, `PresentValueFallsWithTime` and `PresentValueRisesWithCapture` |
| Valuation.TotalPV | app.py:182-189 | the fair market cap, summed in order; no contract of its own, see `TotalPVBounds`, `TotalPVAppend`, `TotalPVOrderFree` and `NothingCapturedNoValue` |
| Valuation.ComputeValuations | app.py:179-193 | the fair market cap is the sum of all present values, the fair price is that sum over the supply, and the breakdown holds one row per asset, in order, with its present value |
| Valuation.CapturedBounds | app.py:184 | the captured value lies between zero and the market cap when the fractions are in [0, 1] |
| Valuation.PresentValueBounds | app.py:184-185 | within the slider ranges, 0 ≤ present value ≤ captured value ≤ market cap |
| Valuation.DiscountRoundTrip | app.py:185 | compounding the present value over the horizon gives back the captured value |
| Valuation.PresentValueFallsWithTime | app.py:185 | with a positive rate, a longer horizon never raises the present value, and strictly lowers a positive one |
| Valuation.PresentValueRisesWithCapture | app.py:184-185 | a larger market cap, premium or probability never lowers the present value |
| Valuation.TotalPVBounds | app.py:182-189 | within the slider ranges, 0 ≤ fair market cap ≤ total captured value |
| Valuation.NothingCapturedNoValue | app.py:182-189 | when every capture is zero, the fair market cap is zero |
| Valuation.TotalPVAppend | app.py:182-189 | the fair market cap of a concatenation is the sum of the parts' |
| Valuation.TotalPVOrderFree | app.py:182-189 | the fair market cap does not depend on the order of the assets |
| Valuation.WorkedExample | app.py:184-190 | 10e12 × 0.5 × 0.2 over ten years at 5% is 1e12 / 1.05^10, about $29,234 per coin for 21 million coins |
| Dashboard.Upside | app.py:221 | zero when the current price is not positive; otherwise positive exactly when the fair price is higher, zero exactly when the prices are equal, and the fair price is recovered as current × (1 + upside/100) |
| Dashboard.RatioFacts | app.py:221 | the fair/current ratio recovers the fair price and compares with 1 as the prices compare |
| Dashboard.ChooseBanner | app.py:234-249 | massive discount exactly above 100%, undervalued exactly in (30, 100], overvalued exactly below −10%, near fair exactly in [−10, 30] |
| Dashboard.BannerMonotone | app.py:234-249 | a higher upside never selects a more bearish banner |
| Dashboard.UpsideThreshold | app.py:221-249 | the upside passes t% exactly when the fair price passes (1 + t/100) × the current price |
| Dashboard.BannerByPriceRatio | app.py:221-249 | with a positive current price the banner depends only on the price ratio: above 2, in (1.3, 2], below 0.9, otherwise in [0.9, 1.3] |
| Dashboard.MaxHorizon | app.py:255 | 1 with no assets; otherwise the largest horizon: no asset exceeds it and some asset has it |
| Dashboard.Projection | app.py:256-257 | one price per year from 0 to the horizon; it starts at the fair price and each year is the previous one times 1 + rate |
| Dashboard.ProjectionUndoesDiscount | app.py:255-257 | an asset's share of the fair price, projected to its horizon, reaches its captured value per coin |
| Dashboard.Evaluate | app.py:296-312 | `None` (the warning) exactly when there are no assets; otherwise the valuation (the fair market cap, the fair price and one breakdown row per asset, in order, with its present value), the upside against the current price, its banner and the projection to the longest horizon |

## Left out

- Rendering is not modelled: the Streamlit page setup, CSS, titles, metrics, expanders, number formatting (`cap_label`, `:.2f`), the pandas DataFrames and the Altair chart. They only display the modelled numbers.
- The sidebar widgets (app.py:81-176) are not modelled. Their ranges appear only as the predicates `SliderRate` and `SliderAsset`, which serve as lemma preconditions. `Evaluate` takes the assets, rate, supply and current price as parameters.
- Asset parameters are a sequence of `Asset` values, not a dict keyed by name. The source's names are a fixed list of distinct literals, so no key is ever overwritten.
- `load_config` (app.py:48-59) is not modelled: file reading, `json.load`, caching, and building the context from `global_settings` plus `default_btc_price`. The context is a parameter that already maps each name to its `str()` text, so the `str()` formatting of numbers is not modelled either.
- `get_current_btc_price` (app.py:68-78) is a network call with a fallback to the configured default. The current price is a parameter.
- Resolver.Resolve: `eval` on a finished string (app.py:40-43) is modelled as the identity, because evaluating Python expressions is out of scope. A string such as `"21000000"` stays a string here, where the source turns it into a number.
- Resolver.Substitute: the unbounded `while` loop becomes a bound of `fuel` passes. `OutOfFuel` means the source had not stopped within that many passes, not that it never stops. The loop lemmas prove never-stopping only for the inputs they name.
- Numbers are exact reals, so IEEE-754 rounding and overflow are not modelled.
- Valuation.ComputeValuations: requires `rate != -1` and a non-zero supply, where the source would raise `ZeroDivisionError`. That error path is not modelled. The rate slider (app.py:93-101) never gives −1. The supply is not a slider: it comes from the configuration (`config["global_settings"]["supply"]`, app.py:64), so a configuration with a zero supply is outside the model.
- Pattern.IsSpace uses a fixed list of Unicode whitespace code points for `\s`. Python's `re` follows `str.isspace`, so the list reflects the Unicode version of the interpreter.
