# Streamlit core routines, modelled and verified in Dafny

This project models four small, sequential parts of the Streamlit repository and proves
what they promise.

- **Frontend license audit** (`check_licenses` in `scripts/audit_frontend_licenses.py`).
  It takes the decoded `pnpm licenses` object, which maps each license to its packages.
  Every license that is not on the allow-list is flagged. Under a flagged license, each
  package is reported unless its `(name, ", "-joined versions)` pair is a listed
  exception. The audit also reports, in sorted order, the exceptions that no package
  under a non-allowed license matched, and exits with 1 exactly when something was reported.
- **OAuth state cache and provider resolution** (`AuthCache` and the callback in
  `lib/streamlit/web/server/oauth_authlib_routes.py`). `AuthCache` is a dictionary
  wrapper that authlib updates in place. The callback splits every cache key
  (`_state_<provider>_<code>`) on `_`, maps each code to its provider with the later key
  winning, and looks up the state code that came back from the identity provider.
- **`st.pydeck_chart` decision logic** (`lib/streamlit/elements/deck_gl_json_chart.py`).
  It covers:
  - the default empty map;
  - which tooltip source wins;
  - when the tooltip and the Mapbox token reach the proto;
  - the validation of `on_select`, and when selections turn the chart into a widget;
  - the normalised, upper-cased selection mode and its assignment to the proto's enum;
  - the empty selection state that deserialisation starts from.
- **Material icon names** (`scripts/update_material_icon_names.py`). The script takes the
  first word of each line of the codepoints file, reports the new names, and generates
  the `ALL_MATERIAL_ICONS` block between its marker lines.

Files:

- `base.dfy` holds `Option` and `Result`.
- `sorting.dfy` models `sorted(...)` over a set, generic in the order.
- `py_text.dfy` holds the Python `str` operations the scripts use: `join`, `split(sep)`,
  `splitlines`, `split()[0]`, `upper`, and string and tuple `<`.
- `license_audit.dfy`, `oauth_authlib_routes.dfy`, `deck_gl_json_chart.dfy` and
  `material_icon_names.dfy` follow the four source files.

Where the source changes state step by step, the model does too:

- `CheckLicenses`, `ProviderForState` and `ExtractIconNames` are methods with loops.
  Each is proved against a recursive specification function, and the properties are
  proved as lemmas about that function.
- `AuthCache` is a class over a `PyDict` object, so `get_dict` hands out the live
  dictionary.
- The chart's proto is an object whose fields `PydeckChart` assigns one after another.

## Model

| member | source | states |
|---|---|---|
| `LicenseAudit.CheckLicenses` | scripts/audit_frontend_licenses.py:101-151 | It returns: the flagged licenses with their non-excepted packages (`Flagged`); the unused exceptions, listed once each in ascending tuple order; every printed line in order (the unused-exception lines first, then one line per unacceptable package or the single "No unacceptable licenses" line); and exit code 1 exactly when something was flagged, else 0 |
| `LicenseAudit.BadLicensesExactly` | scripts/audit_frontend_licenses.py:113-115 | An entry is a bad license exactly when it is in the object and its license is not in `ACCEPTABLE_LICENSES` |
| `LicenseAudit.ReportableExactly` | scripts/audit_frontend_licenses.py:123-130 | A package is reported under its license exactly when it is listed there and its (name, joined versions) pair is not in `PACKAGE_EXCEPTIONS` |
| `LicenseAudit.FlaggedSound` | scripts/audit_frontend_licenses.py:120-133 | Every flagged entry has a bad license that appears in the object, and a non-empty package list equal to that license's non-excepted packages in listed order |
| `LicenseAudit.FlaggedComplete` | scripts/audit_frontend_licenses.py:120-133 | Every bad license with at least one non-excepted package is flagged with exactly those packages |
| `LicenseAudit.FlaggedInKeyOrder` | scripts/audit_frontend_licenses.py:120-147 | The flagged entries sit at strictly increasing positions of the object, so the unacceptable-license lines come out grouped by license in key order |
| `LicenseAudit.InfosExactly` | scripts/audit_frontend_licenses.py:123-125 | A pair is added to `bad_package_check` for a license exactly when some package listed under it has that name and joined versions |
| `LicenseAudit.CheckedInfosExactly` | scripts/audit_frontend_licenses.py:120-125 | `bad_package_check` holds exactly the pairs of the packages under bad licenses, excepted or not |
| `LicenseAudit.UnusedExactly` | scripts/audit_frontend_licenses.py:124-137 | An exception is unused exactly when no package under a non-allowed license matches it |
| `LicenseAudit.FailsExactly` | scripts/audit_frontend_licenses.py:132-148 | Something is flagged (exit code 1) exactly when some package under a non-allowed license is not an exception, so unused exceptions alone never fail the audit |
| `LicenseAudit.ExceptionUnderAcceptableLicenseIsUnused` | scripts/audit_frontend_licenses.py:113-137 | An excepted package listed only under "MIT" is not flagged, and its exception is reported as unused |
| `LicenseAudit.JoinedVersionsMustMatch` | scripts/audit_frontend_licenses.py:124-130 | Matching uses the joined version string, so "mapbox-gl" with versions 1.13.2 and 1.13.3 misses the "1.13.2" exception and is flagged |
| `Sorting.SortSet` | scripts/audit_frontend_licenses.py:139 | `sorted` over a set under a strict total order lists each element once, in strictly ascending order |
| `Sorting.SortedListingUnique` | scripts/update_material_icon_names.py:68 | A set has only one ascending listing, so the sorted output depends on the set alone |
| `Sorting.MinimumExists` | scripts/audit_frontend_licenses.py:139 | A non-empty set under a strict total order has a least element |
| `PyText.PairLessOrders` | scripts/audit_frontend_licenses.py:139 | Python's `<` on pairs of strings is a strict total order |
| `PyText.StrLessOrders` | scripts/update_material_icon_names.py:68 | Python's `<` on strings is a strict total order: irreflexive, transitive and total |
| `PyText.Split` | lib/streamlit/web/server/oauth_authlib_routes.py:86 | `str.split("_")` gives at least one part, and no part contains the separator |
| `PyText.SplitCount` | lib/streamlit/web/server/oauth_authlib_routes.py:86 | `split` gives one part more than the string has separators |
| `PyText.JoinSplit` | lib/streamlit/web/server/oauth_authlib_routes.py:86 | Joining the parts with the separator gives back the string |
| `PyText.SplitJoin` | lib/streamlit/web/server/oauth_authlib_routes.py:86 | Splitting a join of separator-free parts gives back the parts |
| `PyText.SplitLines` | scripts/update_material_icon_names.py:52 | `splitlines` gives no lines exactly for the empty string, and no line contains a line boundary |
| `PyText.SplitLinesTerminated` | scripts/update_material_icon_names.py:52 | `splitlines` recovers the lines of a newline-terminated text |
| `PyText.FirstWord` | scripts/update_material_icon_names.py:59 | `line.split()[0]` has no value exactly when the line is all whitespace |
| `PyText.FirstWordIsFirst` | scripts/update_material_icon_names.py:59 | The value found is a non-empty run of non-whitespace, preceded only by whitespace and followed by whitespace or the end of the line |
| `OAuthAuthlibRoutes.AuthCache.constructor` | lib/streamlit/web/server/oauth_authlib_routes.py:23-24 | A new cache owns a fresh, empty dictionary |
| `OAuthAuthlibRoutes.AuthCache.Get` | lib/streamlit/web/server/oauth_authlib_routes.py:26-27 | `get` returns the stored value, or `None` exactly when the key is absent |
| `OAuthAuthlibRoutes.AuthCache.Set` | lib/streamlit/web/server/oauth_authlib_routes.py:29-30 | After `set(k, v, e)`, `get(k)` is `v` whatever `e` is, and every other key keeps its value. An existing key keeps its position; a new key is appended |
| `OAuthAuthlibRoutes.AuthCache.GetDict` | lib/streamlit/web/server/oauth_authlib_routes.py:32-33 | `get_dict` returns the cache's own dictionary object, not a copy |
| `OAuthAuthlibRoutes.AuthCache.Delete` | lib/streamlit/web/server/oauth_authlib_routes.py:35-36 | After `delete(k)`, `get(k)` is `None`, whether or not `k` was present, and every other key keeps its value and its order |
| `OAuthAuthlibRoutes.Without` | lib/streamlit/web/server/oauth_authlib_routes.py:35-36 | Removing a key from the key order keeps exactly the other keys and keeps them distinct |
| `OAuthAuthlibRoutes.GetDictIsLive` | lib/streamlit/web/server/oauth_authlib_routes.py:26-36 | A dictionary obtained from `get_dict` shows a later `set` and a later `delete` |
| `OAuthAuthlibRoutes.ProviderForState` | lib/streamlit/web/server/oauth_authlib_routes.py:81-88 | The callback loop's provider is `ResolveProvider` of the cache keys in insertion order: the provider of the state code, `None`, or the unpacking error of the first bad key |
| `OAuthAuthlibRoutes.FourPartsExactly` | lib/streamlit/web/server/oauth_authlib_routes.py:86 | A key unpacks into four names exactly when it holds three underscores |
| `OAuthAuthlibRoutes.AuthlibStateKeyUnpacks` | lib/streamlit/web/server/oauth_authlib_routes.py:86-87 | A key `_state_<provider>_<code>` without further underscores unpacks to that provider and that code |
| `OAuthAuthlibRoutes.UnderscoreInProviderFails` | lib/streamlit/web/server/oauth_authlib_routes.py:86 | A provider name with an underscore splits its key into five parts, so resolving any state code fails |
| `OAuthAuthlibRoutes.LoneKeyFails` | lib/streamlit/web/server/oauth_authlib_routes.py:85-86 | A single key that does not unpack into four parts makes resolution fail, naming that key and its part count |
| `OAuthAuthlibRoutes.FailurePersists` | lib/streamlit/web/server/oauth_authlib_routes.py:85-86 | Once a key fails to unpack, the later keys do not change the outcome |
| `OAuthAuthlibRoutes.UnpackFailsExactly` | lib/streamlit/web/server/oauth_authlib_routes.py:85-86 | Resolution fails exactly when some key does not split into four parts, and the error names the first such key |
| `OAuthAuthlibRoutes.LaterKeyWins` | lib/streamlit/web/server/oauth_authlib_routes.py:85-88 | A code maps to the provider of the last key that carries it |
| `OAuthAuthlibRoutes.UnknownStateIsNone` | lib/streamlit/web/server/oauth_authlib_routes.py:85-88 | When every key unpacks, the state code resolves to `None` exactly when no key carries it |
| `DeckGlJsonChart.PydeckTooltip` | lib/streamlit/elements/deck_gl_json_chart.py:367-382 | There is no tooltip without a deck. With a deck, `deck_widget.tooltip` wins when it is a dict, else `_tooltip` when that is a dict, else there is none; any result is a dict |
| `DeckGlJsonChart.Deserialize` | lib/streamlit/elements/deck_gl_json_chart.py:140-149 | With no frontend value, the state is the one-entry dict `{"selection": None}`; otherwise it is the decoded value itself |
| `DeckGlJsonChart.ProtoSelectionModes` | lib/streamlit/elements/deck_gl_json_chart.py:314-342 | With selections active, "ignore" and "single" reach the proto's `SelectionMode` enum as `SINGLE`, and "multi" as `MULTI` |
| `DeckGlJsonChart.UpperLowerInjective` | lib/streamlit/elements/deck_gl_json_chart.py:341 | Two lower-case ASCII modes with the same `upper()` are the same mode |
| `DeckGlJsonChart.SelectionModeAcceptedExactly` | lib/streamlit/elements/deck_gl_json_chart.py:314-342 | A lower-case mode gets past the enum assignment exactly when it is "ignore", "single" or "multi"; any other one, such as "foo", is rejected there |
| `DeckGlJsonChart.PydeckProto.constructor` | lib/streamlit/elements/deck_gl_json_chart.py:283 | A new proto has every field unset |
| `DeckGlJsonChart.PydeckChart` | lib/streamlit/elements/deck_gl_json_chart.py:283-359 | See the list below this table |
| `MaterialIconNames.ExtractIconNames` | scripts/update_material_icon_names.py:52-60 | The loop over `content.splitlines()` yields `IconNamesOf` of those lines |
| `MaterialIconNames.IconNamesFailurePersists` | scripts/update_material_icon_names.py:58-60 | Once a line without a word raises, later lines do not matter |
| `MaterialIconNames.IconNamesFailsExactly` | scripts/update_material_icon_names.py:58-59 | Extraction fails exactly when some line is blank or all whitespace, and reports the first such line |
| `MaterialIconNames.IconNamesCollectsFirstWords` | scripts/update_material_icon_names.py:55-60 | A name is collected exactly when it is the first word of some line, so duplicates collapse to one |
| `MaterialIconNames.IconNamesAreWords` | scripts/update_material_icon_names.py:59 | Every collected name is non-empty and contains no space |
| `MaterialIconNames.WordHasNoSpace` | scripts/update_material_icon_names.py:59 | A first word is non-empty and contains no space |
| `MaterialIconNames.NewIconNames` | scripts/update_material_icon_names.py:64 | The reported new names are fetched names, none of them already known, and together with the known names they cover every fetched name |
| `MaterialIconNames.GenerateCode` | scripts/update_material_icon_names.py:67-69 | The block is the start marker, `ALL_MATERIAL_ICONS = {`, the names in ascending order each in double quotes and joined by ", ", then `}` and the end marker. When no name contains a space, the block is one whole match of the marker regex |
| `MaterialIconNames.QuotedListClean` | scripts/update_material_icon_names.py:68 | The quoted, comma-separated list never has a '#' directly before a space, and a non-empty list begins and ends with a double quote |
| `MaterialIconNames.MarkersAroundClean` | scripts/update_material_icon_names.py:42-44 | The lazy marker regex matches a start marker, a non-empty middle without "# " and an end marker as a whole |
| `MaterialIconNames.BlockMatchesMarkers` | scripts/update_material_icon_names.py:67-69 | A generated block of space-free names is found again, whole, by the marker regex on the next run |

`DeckGlJsonChart.PydeckChart` states:

- It raises exactly when `on_select` is not "ignore", not "rerun" and not a callable.
- When `on_select` is supported and is not "ignore", the upper-cased selection mode
  ("ignore" read as "single") is assigned to the proto's `SelectionMode` enum. It fails
  exactly when that label is neither `SINGLE` nor `MULTI`, and reports the label.
- It registers a widget exactly when `on_select` is supported, is not "ignore", and the
  label names an enum value. The widget's value is then the deserialised selection state.
- Otherwise, the proto holds:
  - the deck's JSON, or the dump of the empty map (latitude 0, longitude 0, pitch 0,
    zoom 1);
  - `use_container_width`;
  - the dumped tooltip only when one was found and is non-empty;
  - the Mapbox token only when it is non-empty;
  - a selection mode, as an enum value, only when the chart is a widget.

## Left out

- JSON text is not parsed or printed. The license object is given already decoded, as
  its entries in key order, and `json.loads`/`json.dumps` are not modelled. The proto
  records which value or deck was dumped (`Dumps`, `DeckToJson`), not the text itself.
  `pydeck.Deck.to_json` is not part of this model.
- Printing is not modelled. The audit's printed lines are returned as `Line` values,
  not formatted strings. The icon script's three report lines are reduced to the
  new-name difference. The debug prints of the callback are dropped.
- `sys.exit` is returned as an exit code, and `main`'s `pnpm licenses` subprocess is
  not part of this model.
- The OAuth routes' Tornado handlers, redirects, cookies, secrets loading, client
  registration and the `authorize_access_token` network call are not part of this model.
  The model stops at the resolved provider.
- `AuthCache.Set`: `expires_in` is accepted and ignored, as in the source. No expiry is
  modelled.
- `DeckGlJsonChart.PydeckChart`: the following are not modelled; the outcome records
  only whether a widget was registered and the state it returned:
  - `check_widget_policies`, `current_form_id` and `compute_and_register_element_id`;
  - the proto's `form_id` and `id` fields;
  - `_enqueue` and the widget registry.

  The `mapbox.token` config value and the registry's stored frontend value are
  parameters. The exception carries the rejected `on_select`, not the message text.
  `UnknownSelectionMode` carries the rejected label in place of the protobuf runtime's
  error; that error is raised after the left-out policy checks and id registration.
- Error values carry more than the source's exceptions. `OAuthAuthlibRoutes.UnpackError`
  records the key and its part count, where Python's `ValueError` from tuple unpacking
  names neither the key nor, for too many values, the count. `MaterialIconNames.NoWordOnLine`
  records the line index, where Python raises a bare `IndexError`.
- `DeckGlJsonChart.Deserialize`: the source wraps the decoded value in
  `AttributeDictionary`. For the JSON objects the frontend sends, that wrapper reads the
  same as the dict, so the model returns the value itself. Non-object values, and
  attribute access on the wrapper, are not modelled.
- `PyText.Upper` upper-cases ASCII letters only. The declared selection modes are
  ASCII; the full Unicode case mapping of `str.upper` on other modes is not modelled.
- JSON numbers are modelled as integers. The chart logic never inspects their values,
  except that zero is falsy.
- The icon script's `urllib` fetch, its file read and write, and the general regular
  expression engine behind `re.sub` are not part of this model. The match of
  `NAMES_SET_REGEX` is stated directly as `MatchesMarkersWholly`, for a search that
  starts at the block's first character.
- `MaterialIconNames.GenerateCode`: the regex round trip is stated for names without
  spaces. Every name extraction collects is such a name (`IconNamesAreWords`).
- Strings are sequences of Unicode code points. Decoding the fetched bytes as UTF-8 is
  not modelled.
