# LexerSearchUI session core in Dafny

This project models the session layer of LexerSearchUI, which is `src/io.rs`. That file does three jobs:

- **Share-link codec.** `to_url_str` turns a `PlaygroundConfig` (subject text, language, ordered matching units) into a token for a URL fragment, by serialising with bincode, compressing with zstd and base-x encoding over `ALPHABET`. `from_url_str` strips an optional `PUBLIC_URL` prefix and undoes the three stages. Whenever a stage fails, it falls back to the built-in example session.
- **Editor parts.** `to_editor_parts` and `from_editor_parts` translate between a session and the three editor panes: the rules as YAML, the subject, and the Monaco language name.
- **Dispatch.** `run` chooses the lexers for the session's language. It registers every pattern of every unit into one trie and stops at the first rejected pattern. It then builds a matcher with the fixed bounds and lets it drain the subject into the caller's sink.

The modules are:

- `Wrappers`: Option and Result.
- `Utf8`: the bytes of a Rust `String`, and injectivity of UTF-8.
- `BaseX`: the alphabet and the big-endian radix conversion of the base_x crate, with its round trip.
- `Config`: the session types, the default session and the bounds.
- `UrlCodec`: the share-link codec.
- `EditorParts`: the editor-pane translation.
- `Dispatch`: lexer dispatch, map conversion, and the registration walk of `run` as an imperative method.

Foreign code enters as values whose fields are functions:

- `UrlCodec.Stages` stands for bincode and zstd.
- `EditorParts.Yaml` stands for serde_yml.
- `Dispatch.Engine` stands for the pattern compiler and the matcher of lexer_search_lib.

The laws these libraries are relied on to obey (`UrlCodec.Lawful`, `EditorParts.YamlLawful`) are hypotheses of the lemmas that need them.

`ALPHABET` has 80 symbols: 26 upper-case letters, 26 lower-case letters, 10 digits and 18 punctuation marks. The model follows the literal at src/io.rs:15.

`PUBLIC_URL` is a parameter of the decoding functions. `UrlCodec.BuildPublicUrl` models how build.rs derives it from the configured public URL.

## Model

| member | source | states |
|---|---|---|
| Utf8.EncodeChar | src/io.rs:159-160 | one scalar value becomes its shortest UTF-8 form: 1 byte below 0x80, 2 below 0x800, 3 below 0x10000, else 4; the lead byte's range fixes the length; every continuation byte lies in 0x80..0xBF |
| Utf8.ScalarOfEncodeChar | src/io.rs:159-160 | the bytes of one character spell its scalar value back |
| Utf8.Encode | src/io.rs:159-160 | the bytes of a string are at least as many as its characters, and are empty exactly when the string is |
| Utf8.EncodeInjective | src/io.rs:159-160 | two strings with the same UTF-8 bytes are equal |
| Utf8.EncodeIsInjective | src/io.rs:159-169 | `into_bytes` is injective: it never sends two different keys to the same bytes |
| BaseX.AlphabetShape | src/io.rs:14-15 | `ALPHABET` has 80 symbols, starts with 'A', and holds neither '#' nor '%' |
| BaseX.AlphabetDistinct | src/io.rs:14-15 | no two positions of `ALPHABET` hold the same symbol |
| BaseX.ValueOfToDigits | src/io.rs:17-23 | the digits of `n` in a base of at least 2 spell `n` |
| BaseX.ToDigitsOfValue | src/io.rs:17-23 | a digit string without a leading zero is exactly the digit string of its value |
| BaseX.Encode | src/io.rs:17-19 | base_x encoding uses only alphabet symbols, and is empty exactly when the input is |
| BaseX.Decode | src/io.rs:21-23 | base_x decoding fails exactly when some symbol lies outside the alphabet |
| BaseX.DecodeOfEncode | src/io.rs:17-23 | over an alphabet of distinct symbols, decoding undoes encoding for every byte string, leading zero bytes included |
| BaseX.EncodeBytes | src/io.rs:17-19 | `encode_bytes` uses only `ALPHABET` symbols, and is empty exactly when the input is |
| BaseX.DecodeBytes | src/io.rs:21-23 | `decode_bytes` fails exactly when some symbol lies outside `ALPHABET`; the empty string decodes to no bytes |
| BaseX.EncodeBytesInAlphabet | src/io.rs:14-19 | every `encode_bytes` output uses only `ALPHABET` symbols, so it holds no '#' and no '%' |
| BaseX.DecodeBytesOfEncodeBytes | src/io.rs:17-23 | `decode_bytes(encode_bytes(d)) == Ok(d)` for every byte string `d` |
| BaseX.DecodeBytesRejects | src/io.rs:21-23 | `decode_bytes` fails exactly on strings holding a symbol outside `ALPHABET`; a '#' gives `InvalidSymbol` |
| Config.Bounds | src/io.rs:26-36 | the matcher bounds: at most 5000 concurrent matches, maximum token length 5000 and group cap 10, the last two non-zero |
| Config.DefaultConfig | src/io.rs:62-79 | the default session has a non-empty Rust subject and one unit holding one pattern |
| Config.DefaultIsExample | src/io.rs:62-79 | the default session has a non-empty Rust subject and one unit, with one non-empty pattern, an empty output map and one transform entry for `_FMT` |
| UrlCodec.ToUrlStr | src/io.rs:84-89 | every token uses only `ALPHABET` symbols and holds no '#' and no '%' |
| UrlCodec.BuildPublicUrl | build.rs:31-39 | `PUBLIC_URL` is the configured URL minus its leading '/' when it has one, followed by "#/", so it holds a '#' |
| UrlCodec.StripPublicUrl | src/io.rs:91-94 | the prefix is removed once when the input starts with it; otherwise the input is unchanged |
| UrlCodec.DecodeToken | src/io.rs:95-110 | each of the four stage outcomes, both ways: the base-x failure exactly when `decode_bytes` fails; the zstd failure when the decoded bytes do not decompress; the bincode failure when the decompressed bytes do not deserialise; otherwise the deserialised session, and a success only in that case |
| UrlCodec.DecodeUrl | src/io.rs:91-111 | the result of `from_url_str`: the decoded session when every stage succeeds, and the default session when any stage fails |
| UrlCodec.FromUrlStr | src/io.rs:91-111 | the method returns the decoded session, and the default session whenever the base-x, zstd or bincode stage fails |
| UrlCodec.ForeignSymbolGivesDefault | src/io.rs:95-98 | if the token holds a symbol outside the alphabet, the base-x stage fails and the default session is returned |
| UrlCodec.HashGivesDefault | src/io.rs:91-98 | a '#' left after the prefix step yields the default session |
| UrlCodec.NoTokenStartsWithPublicUrl | src/io.rs:91-94 | when `PUBLIC_URL` holds a '#', no token starts with it, so a bare token is never cut |
| UrlCodec.PrefixTolerance | src/io.rs:91-94 | `from_url_str(PUBLIC_URL + t) == from_url_str(t)` for every token `t` that `to_url_str` produces, when `PUBLIC_URL` holds a '#' |
| UrlCodec.DecodeTokenOfToUrlStr | src/io.rs:84-110 | under the stage laws, the three decoding stages give back a session with a non-empty subject |
| UrlCodec.RoundTrip | src/io.rs:84-111 | `from_url_str(to_url_str(c)) == c`, with or without the `PUBLIC_URL` prefix, under the stage laws, for a non-empty subject |
| UrlCodec.ShareLinkRoundTrip | src/io.rs:81-111 | the round trip holds for the prefix build.rs produces from any configured public URL |
| EditorParts.MonacoLanguage | src/io.rs:133-146 | every language has a non-empty Monaco name |
| EditorParts.LanguageOfMonaco | src/io.rs:133-146 | a name maps back to a language only if that language's Monaco name is exactly that name |
| EditorParts.LanguageOfMonacoInverse | src/io.rs:133-146 | the reverse table gives back every language from its Monaco name |
| EditorParts.MonacoLanguageInjective | src/io.rs:133-146 | no two languages share a Monaco name |
| EditorParts.EditorLhs | src/io.rs:148-151 | under the YAML laws, the printed rules parse back to the session's rules |
| EditorParts.ToEditorParts | src/io.rs:127-131 | the first part is `editor_lhs`, which under the YAML laws parses back to the session's units; the subject passes through unchanged; the third part is the language's Monaco name |
| EditorParts.FromEditorParts | src/io.rs:113-125 | `Ok` exactly when both YAML parses succeed; the subject is then copied verbatim with the parsed language and rules; a rules error is reported first, then a language error |
| EditorParts.EditorRoundTrip | src/io.rs:113-151 | reading the three panes back gives the session that filled them |
| Dispatch.PatternLexer | src/io.rs:177-191 | the pattern pass sets pattern mode on, with maximum token length 5000 |
| Dispatch.SubjectLexer | src/io.rs:213-226 | the subject pass sets pattern mode off, with maximum token length 5000 |
| Dispatch.PassesAgree | src/io.rs:177-226 | both passes choose the same family and settings; only the pattern mode differs |
| Dispatch.DispatchTable | src/io.rs:213-226 | C/Cpp/CSharp/Java map to C-like with first flag `false`; Go/Js/Ts/Kotlin map to C-like with first flag `true`; Py maps to Python-like; Rust maps to Rust-like; each in both directions |
| Dispatch.ConvertOut | src/io.rs:154-164 | `convert_out` keeps the number of entries (its keys are UTF-8 encoded injectively) |
| Dispatch.ConvertOutEntries | src/io.rs:154-164 | every entry appears under its UTF-8 key with its UTF-8 value, no other key appears, and the size is kept |
| Dispatch.ConvertTransform | src/io.rs:166-171 | `convert_transform` keeps the number of entries |
| Dispatch.ConvertTransformEntries | src/io.rs:166-171 | every entry appears under its UTF-8 key with its value unchanged, no other key appears, and the size is kept |
| Dispatch.RegistrationOf | src/io.rs:193-201 | each `add_pattern` call carries the pattern's UTF-8 bytes, the unit's `out` and `transform` maps as converted by `convert_out` and `convert_transform` (so of the same sizes), the unit's name and group, the pattern-mode lexer of the language, and the default maximum token length |
| Dispatch.UnitRegistrations | src/io.rs:175-201 | one registration per pattern of the unit |
| Dispatch.Registrations | src/io.rs:174-203 | one registration per pattern over all units: the sum of the pattern counts |
| Dispatch.RegistrationAt | src/io.rs:174-201 | pattern `pj` of unit `ui` is registered at the position after the patterns of the earlier units, with its unit's name, group, converted maps and the pattern lexer |
| Dispatch.RegisterAll | src/io.rs:174-203 | the `?` walk: a successful walk keeps the registrations before it as its prefix and ends with one more per pattern (`RegisterAllOk` states the full contents) |
| Dispatch.RegisterAllOk | src/io.rs:193-201 | a walk that succeeds has registered every pattern in order, and each pattern was accepted given the ones before it |
| Dispatch.RegisterAllAccepted | src/io.rs:193-201 | if every pattern is accepted given the ones before it, the walk succeeds |
| Dispatch.RegisterAllStopsAt | src/io.rs:193-201 | the first rejected pattern's error is the walk's error |
| Dispatch.RegisterAllErr | src/io.rs:193-201 | a walk that fails names the error of its first rejected pattern |
| Dispatch.Trie.constructor | src/io.rs:173 | the new trie holds no patterns |
| Dispatch.Trie.AddPattern | src/io.rs:193-201 | an accepted pattern is appended and `Ok` is returned; a rejected one yields `Err` with the compiler's message |
| Dispatch.NewMatcher | src/io.rs:205-210 | the matcher holds the trie's patterns with bounds 5000, 5000 and 10 |
| Dispatch.BuiltMatcher | src/io.rs:173-210 | a built matcher holds exactly the registrations of all units in order, one per pattern |
| Dispatch.RunResult | src/io.rs:153-231 | when no matcher is built, `run` fails and the sink receives nothing; otherwise the sink receives what the drain delivers |
| Dispatch.RegisterUnit | src/io.rs:175-202 | the inner loop over one unit's patterns: on success the trie gained exactly the unit's registrations, in order, and the walk continues with the later units; on failure its error is the outcome of the whole walk |
| Dispatch.Run | src/io.rs:153-231 | the nested loops with the `?` exit return exactly the outcome and the sink deliveries of the registration walk, followed by the drain |
| Dispatch.RunAbortsOnFirstError | src/io.rs:173-211 | when pattern `j` is the first one rejected, `run` returns its error, builds no matcher, and the sink receives nothing |
| Dispatch.RunErrNamesFirstRejection | src/io.rs:193-201 | when no matcher is built, `run` fails with the message of the first rejected pattern, and the sink receives nothing |
| Dispatch.RunBuildsMatcher | src/io.rs:205-210 | the matcher is built exactly when every pattern is accepted; it then holds all registrations, one per pattern, with bounds 5000, 5000 and 10 |
| Dispatch.RunDrivesMatcher | src/io.rs:212-230 | once every pattern is accepted, the sink receives what the matcher delivers on the subject's bytes, and `run` is `Ok` exactly when the drain reports no error |

## Left out

- The internals of bincode, zstd and serde_yml are not modelled, and neither are compression level 22 or the YAML grammar. These are foreign libraries. They enter as functions, and their inverse laws are hypotheses.
- The `.unwrap()` calls in `to_url_str` and `editor_lhs` are assumed to succeed. The serialiser, the compressor and the YAML printer are therefore total functions.
- Dispatch.RegisterAll: its own contract states only the length and the prefix of a successful walk. The full contents (`done + todo`) are stated by `Dispatch.RegisterAllOk`; keeping that fact off the function keeps the proof of `Dispatch.Run` small.
- `from_url_str` returns `cfg.0`, dropping the count of bytes bincode read. This is folded into the abstract `deserialize`.
- UrlCodec.RoundTrip: stated only for sessions with a non-empty subject. The subject is skipped when it is empty (src/io.rs:44), and the positional bincode format gives no guarantee of reading such a record back.
- EditorParts.EditorRoundTrip: src/main.rs passes the Monaco name back as the language text. That serde_yml reads each Monaco name as its language is a hypothesis (`YamlLawful`), not something the model derives.
- The trie's pattern compiler, the lexers, the matcher and `process_and_drain` are not modelled; they belong to lexer_search_lib. `add_pattern` is an abstract step that accepts or rejects a pattern given the patterns before it. Draining is an abstract function from the matcher, the lexer and the subject's bytes to the matches delivered and an optional error.
- Dispatch.Trie.AddPattern: on a rejection the model leaves the trie's patterns unchanged. What lexer_search_lib's trie holds after a failed `add_pattern` is not visible, and `run` discards the trie on that path.
- A lexer is modelled by the arguments of its `make_*_lexer` call, not by its behaviour. The meaning of the first flag of `make_c_like_lexer` belongs to lexer_search_lib, which is not part of this model. The model records only which languages pass `true` and which pass `false`.
- A `FullMatch` is modelled by its start and end positions only; captures are left out.
- The sink is the sequence of matches it receives, in order. Side effects of the caller's closure are not modelled.
- `PUBLIC_URL` is read from a file that build.rs writes. Here it is a parameter, and the file I/O and TOML reading of build.rs are left out.
- src/main.rs, the Yew/Monaco user interface that calls the core, is not part of this model.
- The BTreeMap ordering of `convert_out` and `convert_transform` is not modelled: Dafny maps are unordered, and only the key-to-value content is stated.
- The base_x crate is not part of the repository. It is modelled as standard big-endian radix conversion, as in Base58. Each leading zero byte becomes one leading 'A'. An input made only of zero bytes becomes one fewer leader plus the digit zero.
