# Granted: registry sections and SSO profile merge

This project models two in-memory transformations that Granted applies to an AWS
shared-config file once it has been loaded with gopkg.in/ini.v1. In the model a config
file is an ordered list of sections, and each section has a name and an ordered list of
keys.

* **The registry section synchronizer.** A profile registry is a git repository of AWS
  profiles. Its profiles are copied into the user's config between two marker sections:
  `[granted_registry_start <url>]` and `[granted_registry_end <url>]`. The model covers:
  * the three queries: every generated section, the user's own profiles, and the block
    of one registry;
  * the removal of every block;
  * the generation of a new block. Profile names that are already taken are renamed
    with a namespace derived from the registry URL.

  `CheckArrayEquality` is the comparison the registry tests use, and it is modelled as
  written.
* **The SSO profile merge.** This covers `granted sso generate` / `populate`. It
  includes:
  * the option validation of `parseCliOptions`;
  * account-name normalisation;
  * `mergeSSOProfiles`, which deletes and recreates one
    `[profile <prefix><account>/<role>]` section per SSO profile, holding four keys.

Modules:

* `Wrappers` (`wrappers.dfy`): `Option` and `Result`.
* `Strings` (`strings.dfy`): character replacement, prefix tests, and searching for a
  character or a text.
* `Ini` (`ini.dfy`): the loaded document under ini.v1's default options.
  * Values: `Section` and `Key`.
  * Loading: `Load` merges a repeated header into the first section of that name.
  * The `File` class, with `DeleteSection`, `NewSection`, `NewKey` and `ReflectFrom`.
    These are the operations the SSO merge calls on the file in place.
* `Registry` (`registry.dfy`): blocks, the queries, removal, namespaces, renaming and
  generation. The two updates, `RemoveAutogeneratedProfiles` and
  `GenerateNewRegistrySection`, are methods of the `Registry` module that take an
  `Ini.File` and change its sections. Each is proved against a function on the section
  list, and the properties are proved about those functions.
* `ArrayEquality` (`array_equality.dfy`): the test helper, as a loop proved against a
  function.
* `Sso` (`sso.dfy`): option validation, normalisation and the merge. The merge is a loop
  over the profiles that changes a `File`, proved against a fold.
* `Fixtures` and `GenerationFixtures` (`fixtures.dfy`, `generation_fixtures.dfy`): the
  test scenarios, stated on the model and proved.

## How blocks are read

The implementation of the registry synchronizer is not part of this model. Its behaviour
is rebuilt here from what `pkg/granted/registry/sections_test.go` asserts:

* A block starts at a section named `granted_registry_start <id>`.
* It ends at the nearest later section named `granted_registry_end <id>`. The two
  identifiers must be identical, and identifiers are compared exactly.
* The document is scanned from left to right. When the scan reaches a start marker
  that opens a block, it jumps past the block's end marker. So a start marker inside
  another block opens nothing, and every section between the two markers belongs to the
  block.
* The block of one registry is the first block the scan opens with that registry's start
  marker. The by-URL query returns it, and the removal of one registry cuts it out.
* A marker that opens no block, or closes none, is an orphan. An orphan belongs to
  neither the generated sections nor the user's profiles.
* DEFAULT is never a user profile.

Loading follows ini.v1's default options, which is what the tests use:

* A repeated `[profile duplicate]` header reopens the first section of that name.
* A key that is set twice keeps its first position and takes the later value.
* So a loaded file never holds two sections of one name.

So the fixture at `sections_test.go:306-356` loads as 15 sections: the second
`[profile duplicate]`, inside the `repo_two` block, reopens the section of the `repo_one`
block. This gives the counts the tests expect: 10 generated sections, and 5 for
`repo_two`.

## Model

| member | source | states |
|---|---|---|
| ArrayEquality.CheckArrayEquality | pkg/granted/registry/sections_test.go:279-304 | Lists of different lengths give (false, []). Otherwise `invalid` is exactly the received names that are absent from `want`, in received order. The verdict is true iff the lengths agree and every received name occurs in `want`. |
| ArrayEquality.AbsentMembers | pkg/granted/registry/sections_test.go:284-297 | A name is reported iff it was received and is not wanted. |
| ArrayEquality.AbsentEmpty | pkg/granted/registry/sections_test.go:299-303 | Nothing is reported iff every received name is wanted. |
| ArrayEquality.PermutationAccepted | pkg/granted/registry/sections_test.go:279-304 | Every rearrangement of the wanted list is accepted. |
| ArrayEquality.AcceptsNonPermutation | pkg/granted/registry/sections_test.go:285-297 | The check is membership, not multiset equality: `["a","a"]` is accepted against `["a","b"]`. |
| Sso.PrefixPatternIsCharClass | pkg/granted/sso.go:97 | `^[A-Za-z0-9_-]*$` matches exactly the strings whose characters all lie in that class, the empty string included. |
| Sso.ParseCliOptions | pkg/granted/sso.go:95-124 | Succeeds iff: every prefix character is in `[A-Za-z0-9_-]`, the region expands, and there is exactly one positional argument. On success the options hold that prefix, that argument as start URL, and the expanded region. Otherwise the first failing check decides the error, in the order prefix, region, arguments. |
| Sso.NormalizeAccountName | pkg/granted/sso.go:249-251 | Same length and no space. Every space becomes '-', and every other character stays as it is. |
| Sso.NormalizeIdempotent | pkg/granted/sso.go:249-251 | Normalising twice equals normalising once. |
| Sso.SectionName | pkg/granted/sso.go:222 | The section name begins with `profile ` followed by the prefix. |
| Sso.ReflectIntoEmpty | pkg/granted/sso.go:229-239 | The four tag names are distinct. So reflecting a profile onto a new section writes exactly `sso_start_url`, `sso_region`, `sso_account_id` and `sso_role_name`, in that order, with the profile's values. |
| Sso.MergeProfile | pkg/granted/sso.go:222-243 | One iteration: every section of the profile's name is deleted, and a section of that name holding the four keys is appended. Unique names stay unique. |
| Sso.MergeSSOProfiles | pkg/granted/sso.go:220-247 | The file becomes its old sections with the profiles merged one after another in list order. Unique names stay unique. |
| Sso.MergedOnce | pkg/granted/sso.go:221-225 | After merging, each profile's section name occurs exactly once, whatever the file held and however many profiles share the name. |
| Sso.MergedLastWins | pkg/granted/sso.go:221-239 | When no later profile maps to the same section name, that profile's section, with its four keys, is in the result. So the last of several profiles with one name wins. |
| Sso.MergedKeepsOthers | pkg/granted/sso.go:224 | Sections whose names no profile produces are kept, with their keys and in their order. |
| Sso.MergedUnique | pkg/granted/sso.go:224-225 | Merging keeps section names unique. |
| Ini.File.DeleteSection | pkg/granted/sso.go:224 | Removes every section of the name and keeps the others in order. Unique names stay unique. |
| Ini.File.NewSection | pkg/granted/sso.go:225-228 | An empty name is an error and nothing changes. An existing name gives back that section's position. A new name appends an empty section. |
| Ini.File.NewKey | pkg/granted/sso.go:229-239 | Sets one key on one section: an existing key takes the new value in place, and a new key goes to the end. No other section changes. |
| Ini.File.ReflectFrom | pkg/granted/sso.go:229-239 | Sets the given keys one after another on the section at the index. No other section changes. |
| Ini.SetKeyLookup | pkg/granted/sso.go:229-239 | After a key is set it reads back the new value, and every other key reads as before. The section grows only when the key is new. |
| Ini.SetKeysAppends | pkg/granted/sso.go:229-239 | Distinct keys that are new to the section are appended in order. |
| Ini.WithoutKeeps | pkg/granted/sso.go:224 | Deleting a name keeps exactly the sections of other names. |
| Ini.AddSection | pkg/granted/registry/sections_test.go:329-336 | While loading, a repeated header reopens the existing section, and a new name is added at the end. Names stay unique, and earlier names keep their order. |
| Ini.Load | pkg/granted/registry/sections_test.go:31 | A loaded document has unique names and starts with DEFAULT. A name is in it iff it is DEFAULT or a header of the text. |
| Ini.LoadNames | pkg/granted/registry/sections_test.go:31 | The loaded names are DEFAULT followed by the headers' names, each once, in the order of their first occurrence. |
| Ini.LoadKeys | pkg/granted/registry/sections_test.go:31 | Each loaded section holds the keys of every header of its name, set one after another in text order. |
| Ini.LoadIntoAppend | pkg/granted/registry/sections_test.go:31 | Loading headers in two parts equals loading them in one. |
| Ini.LoadIntoFresh | pkg/granted/registry/sections_test.go:31 | Headers without keys whose names are new and distinct are appended as they are. |
| Ini.LoadIntoRepeat | pkg/granted/registry/sections_test.go:329-336 | A header without keys that repeats a section without keys changes nothing. |
| Registry.MarkerNames | pkg/granted/registry/sections_test.go:320-350 | A start marker is never an end marker. A start marker is closed by the end marker of its own identifier. Two markers of one kind are equal iff their identifiers are. |
| Registry.BlockEndIsNearestCloser | pkg/granted/registry/sections_test.go:320-350 | A block exists at a position iff a start marker stands there and its end marker follows. The block ends at the nearest such end marker. |
| Registry.GeneratedPartition | pkg/granted/registry/sections_test.go:84-93 | Every section is either generated or left by the removal, and never both (multiset equality). |
| Registry.NonGrantedAreUserSections | pkg/granted/registry/sections_test.go:37-51 | The non-granted profiles are the sections left outside every block that are neither markers nor DEFAULT, in document order. |
| Registry.WithoutMarkers | pkg/granted/registry/sections_test.go:22-25 | In a document without markers nothing is generated. Every section except DEFAULT is non-granted, in document order. |
| Registry.NoBlocksNothingGenerated | pkg/granted/registry/sections_test.go:69-72 | A document without any complete block has no generated sections, and removal changes nothing. |
| Registry.RemoveAutogeneratedProfiles | pkg/granted/registry/sections_test.go:134 | Scans once by position. The file becomes the sections outside every block, in order. Unique names stay unique. |
| Registry.RemovalIsComplete | pkg/granted/registry/sections_test.go:134-147 | After removal, a new scan finds no generated section. A second removal changes nothing. The non-granted profiles are unchanged. |
| Registry.WithoutGeneratedUnique | pkg/granted/registry/sections_test.go:134 | Removal keeps section names unique. |
| Registry.GrantedGeneratedSections | pkg/granted/registry/sections_test.go:84 | The generated sections are drawn from the document (multiset inclusion). |
| Registry.NonGrantedProfiles | pkg/granted/registry/sections_test.go:37 | Every non-granted profile is a section of the document that is neither a marker nor DEFAULT. |
| Registry.CloserIs | pkg/granted/registry/sections_test.go:320-350 | The closer of a start marker is an end marker, and it is the end marker of a URL only when the start marker is that URL's. |
| Registry.BlockFromFirst | pkg/granted/registry/sections_test.go:183 | The scan stops at the first position it visits where a block of the URL opens, and finds nothing iff no visited position opens one. |
| Registry.RegistryBlockFound | pkg/granted/registry/sections_test.go:183 | A found block starts at a position the scan visits, with the start marker of exactly that URL, and runs to the nearest later end marker of that URL. No earlier visited position opens a block of the URL. |
| Registry.RegistryBlockMissing | pkg/granted/registry/sections_test.go:168-173 | No block is found iff no position the scan visits holds the URL's start marker followed by its end marker. |
| Registry.GeneratedSectionByRegistryURL | pkg/granted/registry/sections_test.go:168-173 | Without a start marker for the URL, the result is empty. |
| Registry.ByRegistryURLShape | pkg/granted/registry/sections_test.go:162-167 | A non-empty result opens with the URL's start marker and closes with its end marker. It holds no other end marker of that URL. |
| Registry.RemoveRegistry | pkg/granted/registry/sections_test.go:252 | Removing one registry's block shortens the document by exactly the length of the by-URL result. |
| Registry.RemoveRegistryIsScanBlock | pkg/granted/registry/sections_test.go:134-147 | Removing one registry's block leaves what the removal of all blocks keeps, and the non-granted profiles, unchanged. The generated sections lose exactly the by-URL result (multiset). |
| Registry.RemoveRegistryKeepsOthers | pkg/granted/registry/sections_test.go:252 | Removing one registry's block keeps every other section (multiset). In a file with unique names, names stay unique and the registry has no block left. |
| Registry.RegistryNamespace | pkg/granted/registry/sections_test.go:235 | A namespace never contains '/'. |
| Registry.NamespaceOfRepository | pkg/granted/registry/sections_test.go:220 | `https://<host>/<owner>/<repo>.git` has namespace `<repo>`. |
| Registry.NamespaceOfRepositoryFile | pkg/granted/registry/sections_test.go:232-235 | `https://<host>/<owner>/<repo>.git/<file>` has namespace `<repo>_<file>`. |
| Registry.RenameForRegistry | pkg/granted/registry/sections_test.go:220 | A renamed profile keeps its `profile ` keyword. The namespace and a dot are inserted, which lengthens the name by the namespace's length plus one. |
| Registry.BodyFrom | pkg/granted/registry/sections_test.go:220-235 | Building a block body can fail only with a name collision. |
| Registry.BodyFails | pkg/granted/registry/sections_test.go:220-235 | Building a block body fails iff some source profile finds both its own name and its renamed name taken at its turn. Taken means present before the block, or given to an earlier profile of the block. |
| Registry.BodyOfFreeNames | pkg/granted/registry/sections_test.go:212-214 | When the source's profile names are distinct and none is taken, building succeeds and the body is the source's profiles unchanged. |
| Registry.BodyKeepsFreeNames | pkg/granted/registry/sections_test.go:220 | A source profile keeps its name iff that name is not yet in the file and was not given to an earlier profile of the block. |
| Registry.BodyNamesFresh | pkg/granted/registry/sections_test.go:235 | No name in a new block was taken before, and no two of them are equal. |
| Registry.BodyShape | pkg/granted/registry/sections_test.go:220 | The block body holds the source's profiles, DEFAULT left out, in order and with their keys. Each one carries its own name or its renamed one. |
| Registry.Generate | pkg/granted/registry/sections_test.go:252-255 | Generation fails with DuplicateRegistry iff a marker of the URL remains in the base document, and that error names the URL. |
| Registry.GenerateSucceeds | pkg/granted/registry/sections_test.go:252-255 | Generation succeeds iff no marker of the URL remains in the base and no source profile collides at its turn. |
| Registry.GenerateFreeSource | pkg/granted/registry/sections_test.go:209-214 | With no marker of the URL in the base, and source profile names that are distinct and free, generation appends the start marker, the source's profiles unchanged, and the end marker. |
| Registry.GenerateRejectsExistingBlock | pkg/granted/registry/sections_test.go:252-255 | Without overwrite, a registry that already has a block is refused with DuplicateRegistry. |
| Registry.GenerateAppendsBlock | pkg/granted/registry/sections_test.go:220 | A successful generation is the base document followed by the start marker, the source profiles in order with their keys (each under its own or its renamed name), and the end marker. |
| Registry.GenerateUnique | pkg/granted/registry/sections_test.go:252 | Generation keeps section names unique. |
| Registry.AppendedBlockIsFound | pkg/granted/registry/sections_test.go:252 | With no start marker of the URL in the base and no end marker in the body, the URL's block is exactly the appended markers and body. |
| Registry.ProfileSourcesNoEndMarker | pkg/granted/registry/sections_test.go:209-236 | A source whose profiles are all `profile ...` sections holds no end-marker name, under its own names or renamed. |
| Registry.BodyNoEndMarker | pkg/granted/registry/sections_test.go:220 | A block body built from such a source holds no end marker. |
| Registry.GenerateFoundByURL | pkg/granted/registry/sections_test.go:252 | After generation from a source without end-marker names, the by-URL query finds exactly the new block. |
| Registry.GenerateOverwriteIdempotent | pkg/granted/registry/sections_test.go:252 | Regenerating with overwrite from the same source, when it holds no end-marker names, reproduces the same document. |
| Registry.BuildBody | pkg/granted/registry/sections_test.go:220-235 | The loop over the source's sections returns exactly the block body, or the first name collision. |
| Registry.GenerateNewRegistrySection | pkg/granted/registry/sections_test.go:252-255 | On success the file becomes the generated document. On error it is unchanged and the error is returned, so the update is all-or-nothing. Unique names stay unique. |
| Fixtures.LoadedUnique | pkg/granted/registry/sections_test.go:306-356 | The names of the loaded fixture's 15 sections are pairwise distinct. |
| Fixtures.LoadRepeated | pkg/granted/registry/sections_test.go:329-336 | Loading a document without keys, with one header repeated later, gives back the document. |
| Fixtures.LoadWithGenerated | pkg/granted/registry/sections_test.go:306-356 | Loading the fixture's headers in file order, including the repeated `profile duplicate`, gives the loaded fixture. |
| Fixtures.LoadWithoutGenerated | pkg/granted/registry/sections_test.go:358-374 | Loading the headers of the fixture without blocks gives DEFAULT, one, two, three. |
| Fixtures.LoadedWithGeneratedShape | pkg/granted/registry/sections_test.go:306-356 | The loaded fixture is DEFAULT, two profiles, a five-section block for `repo_one`, a five-section block for `repo_two`, and two profiles. |
| Fixtures.WithGeneratedScenarios | pkg/granted/registry/sections_test.go:17-20 | On the fixture: the non-granted profiles are before.1, before.2, after.1, after.2; 10 sections are generated; the `repo_two` block has 5 sections; after removal nothing is generated. |
| Fixtures.WithoutGeneratedScenarios | pkg/granted/registry/sections_test.go:22-25 | On the fixture without blocks: the non-granted profiles are one, two, three, in order. Nothing is generated for any URL, and removal changes nothing. |
| GenerationFixtures.FirstRegistry | pkg/granted/registry/sections_test.go:212-214 | The first registry added to a file holding only DEFAULT keeps the names of its three distinct profiles. |
| GenerationFixtures.SecondRegistryRenamesShared | pkg/granted/registry/sections_test.go:209-221 | A second registry keeps its two new names and renames the shared one into its own namespace. |
| GenerationFixtures.SameSourceTwice | pkg/granted/registry/sections_test.go:222-236 | The same source added under a second identifier has every profile renamed into that identifier's namespace. |
| GenerationFixtures.RepoTwoNamespace | pkg/granted/registry/sections_test.go:217 | The namespace of `https://github.com/octo/repo_two.git` is `repo_two`. |
| GenerationFixtures.RepoOneConfigNamespace | pkg/granted/registry/sections_test.go:232 | The namespace of `https://github.com/octo/repo_one.git/config.yml` is `repo_one_config.yml`. |
| GenerationFixtures.TwoRegistriesScenario | pkg/granted/registry/sections_test.go:209-221 | Loading "" gives only DEFAULT. Adding `repo_one` and then `repo_two` gives the sections listed at :220, with `profile repo_two.duplicate`. |
| GenerationFixtures.SameRepositoryTwiceScenario | pkg/granted/registry/sections_test.go:222-236 | Loading "" gives only DEFAULT. Adding `repo_one.git` and then `repo_one.git/config.yml` gives the sections listed at :235, with all three profiles prefixed `repo_one_config.yml.`. |

## Left out

- Loading text: ini.v1 parsing, serialisation, comments, `Reload`, `WriteTo` and `SaveTo`, and temporary files are left out. These are library and file I/O. A document is given as its list of headers, each with the keys written under it.
- The fixtures are given already loaded. The scenarios compare section names only, so the fixtures' keys are left empty.
- Reload: the generation tests reload a file loaded from a byte source. This is taken to change nothing.
- The second generation test: its `configFileContent` field is never used, because the test starts both scenarios from `ini.Load([]byte(""))`. Both scenarios therefore start from DEFAULT alone.
- The registry's removal writes the file with `SaveTo`. Only the in-memory removal is modelled.
- The implementation file of the registry synchronizer is not part of this model. Its behaviour is rebuilt from the tests, and so is everything the tests leave open:
  - the block reading described above;
  - the error when a marker of the registry is already present;
  - the error when a renamed name still collides;
  - skipping the source's DEFAULT section.
- Registry.GenerateFoundByURL: requires that no source profile, renamed or not, bears an end-marker name. Without it, an orphan start marker of another registry in the base could be closed by such a profile inside the new block, and the scan would step over the new start marker.
- Registry.GenerateOverwriteIdempotent: requires the same, for the same reason. Every source whose profiles are `profile ...` sections meets it (`ProfileSourcesNoEndMarker`).
- Registry.RegistryNamespace: the rule is pinned only by the two identifiers in the tests. It strips the scheme, the host and the owner, drops ".git" from the repository segment, and turns '/' into '_'. Identifiers of other shapes get whatever this rule gives.
- Sso.ParseCliOptions: the region expansion (`cfaws.ExpandRegion`) is a foreign call and is passed in as a result. Flag reading is reduced to the prefix string and the list of positional arguments. An invalid regular expression cannot occur for a constant pattern, so that error branch is not modelled.
- Sso.MergeProfile: the error branches after `NewSection` and `ReflectFrom` cannot be taken. The section name is never empty, because it starts with `profile `, and the reflected struct has four string fields whose tag names are non-empty, so no key name is empty. They are left out.
- Ini.File.ReflectFrom: struct reflection is reduced to the list of (tag name, value) pairs, in field order.
- Ini.File.NewKey: ini.v1 returns an error for an empty key name, and that branch is left out. It cannot be reached from `Sso.MergeProfile`, whose four tag names are non-empty literals.
- The SSO profile listing is left out. It needs device-code authentication, token storage and paginated AWS API calls, which are network I/O.
- The `generate` and `populate` command actions are left out. They are CLI wiring: loading the config file, saving it, and printing.
- `cmd/assume/main.go` is left out. It is the process entry point and has no logic to model.
