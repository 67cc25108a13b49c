# roscompile CMake introspection, modelled in Dafny

roscompile repairs the build files of ROS packages. Its `ros_introspection` library reads a
`CMakeLists.txt` into a tree of Python objects and writes it back:

- a `re.Scanner` lexer splits the text into tokens;
- `AwesomeParser` pops tokens into `Command`s, whose `Section`s hold values;
- `match_command_groups` folds `if`/`endif` and `foreach`/`endforeach` pairs into
  `CommandGroup`s, each holding a nested `CMake`.

A `CMake` object keeps its `contents` and an index `content_map` from command names to
commands. The printed form of an unchanged command is its original text.

On top of that object model:

- the `roscompile` passes edit the file: dependency checks, install rules, comment and blank-line
  removal, and alphabetised sections;
- the ROS 2 conversion tool (`magical_ros2_conversion_tool`) rewrites commands;
- the same library reads and edits `package.xml`, plugin XML, `setup.py` and rviz configuration.

This project models that core:

| module | file | models |
|---|---|---|
| `Base` | base.dfy | `Option`, `Result`, the Python exceptions raised |
| `Str` | str.dfy | the Python string and list operations used (`replace`, `join`, `split`, `strip`, `sorted`) |
| `CMakeDoc` | cmake_doc.dfy | `ORDERING`, `SectionStyle`, `Section`, `Command`, `CommandGroup`, and their printed forms |
| `CMakeFile` | cmake_file.dfy | `CMake`'s constructor and index, sort keys, `get_insertion_index`, `add_command`, `remove_command` |
| `CMakeQuery` | cmake_query.dfy | project name, variable resolution, build rules, test sections, `get_test_section` |
| `CMakeEdit` | cmake_edit.dfy | `get_command_section` and `section_check` |
| `CMakeLexer` | cmake_lexer.dfy | the scanner |
| `CMakeGroups` | cmake_groups.dfy | `match_command_groups` |
| `CMakeParser` | cmake_parser.dfy | `AwesomeParser`, `parse_commands` and `parse_command` |
| `CMakePass` | cmake_pass.dfy | the shared shape of a `for cmd in cmake.content_map[name]` loop that edits each command in place |
| `RoscompileCMake` | roscompile_cmake.dfy | the `roscompile` CMake passes: dependency checks, `get_matching_add_depends`, `remove_pattern`, alphabetised sections, `prettify_installs`, comment and blank-line removal |
| `Installs` | installs.dfy | the install rules: install types, multi-word sections, `install_sections`, `remove_install_section`, `fix_double_directory_installs` |
| `InstallCheck` | install_check.dfy | `get_commands_by_type`, `matches_patterns` and `install_section_check` |
| `Ros2CMake` | ros2_cmake.dfy | the ROS 2 conversion of `CMakeLists.txt`: `find_package` splitting, installation variables, the C++11 flag, include exports, renamed commands, catkin libraries, `remove_all_commands` |
| `PackageXml` | package_xml.dfy | the `package.xml` document as a list of text and element children: `ORDERING`, dependency tags per format, runs of equal tags, `get_insertion_index` |
| `PackageXmlDoc` | package_xml_doc.dfy | the `PackageXML` class: `std_tab`, `get_child_indexes`, `get_packages`, `insert_new_tags`, `insert_new_packages`, `add_packages`, `remove_element`, `remove_dependencies` |
| `Manifest` | manifest.dfy | the roscompile `package.xml` passes: ordering, text cleanup, blank lines, license, `replace_package_set`, `greedy_depend_tag`, `enforce_tabbing_helper` |
| `SetupPy` | setup_py.dfy | `python_to_lines`, `quote_string`, `contains_quoted_string` and the `SetupPy` class that prints `setup.py` |
| `PluginXml` | plugin_xml.dfy | the `PluginXML` class: `insert_if_needed` and its printed form |
| `RvizConfig` | rviz_config.dfy | `get_class_dicts`, `dictionary_subtract` and `RVizConfig.get_dependencies` |
| `RosGenerator` | ros_generator.dfy | `ROSGenerator`: the name parts of a message, service or action file and the packages its fields depend on |
| `LegacyUtil` | legacy_util.dfy | the older roscompile `util.py`: `clean_contents` and `remove_blank_lines` |
| `LegacyCMake` | legacy_cmake.dfy | the older roscompile `CMake` reader: its character scanner and `output` |
| `LegacyPackageXml` | legacy_package_xml.dfy | the older roscompile `PackageXML`: `get_packages`, `insert_new_elements` and the `add_packages` state machine |

Python object identity matters in this code:

- `content_map` holds references to the objects in `contents`;
- `list.remove` compares objects by identity;
- an edit of a command found through `content_map` is seen in `contents`.

The model gives every `Command` and `CommandGroup` an explicit identity `id`. A document is a
value whose `contentMap` lists ids. Editing a command in place becomes replacing the value with
that id in `contents`. The invariant `CMakeFile.Consistent` ties the two together: ids are
distinct, and each name's entry lists the ids filed under that name.

The default argument `style=SectionStyle()` of `Section.__init__` is one object shared by every
section built without a style of its own. The model writes a section's style as `Shared` or
`Own(style)`. Printing takes the shared object's current value as a parameter.

The parser is a class whose `tokens` field its methods pop, as in the source. Each of its loops
is proved against a recursive specification function on the token list. The properties are
proved about those functions:

- every parse consumes its tokens exactly;
- the text of what is parsed is the input (`CMakeParser.ParseRoundTrip`);
- grouping keeps the text whenever every `if`/`foreach` is closed.

`package.xml` is a list of root children, each a text node or an element holding its text.
`PackageXML`, `PluginXML`, `RVizConfig`, `SetupPy` and the older `CMake` and `PackageXML` of
`src/roscompile` are classes whose methods update their fields, as in the source. Each method
with a loop is proved against a specification function, and the properties are lemmas about
that function:

- packages are inserted where the tag ordering puts them, once each, and removed cleanly;
- manifest ordering is a stable permutation of the chunks, and tabbing is idempotent;
- `setup.py` printing lays collections out on one line or many, with a comma after each item;
- `insert_if_needed` is idempotent;
- `dictionary_subtract` leaves keys that `beta` lacks untouched, and reports a change exactly
  when it shrank the mapping;
- the older CMake reader prints back its input unless the text ends inside a command.

## Model

| member | source | states |
|---|---|---|
| CMakeDoc.OrderingIndex | ros_introspection/src/ros_introspection/cmake.py:15-24 | the position of the first ORDERING entry that is the name or a list holding it; len(ORDERING) when there is none |
| CMakeDoc.NewCommand | ros_introspection/src/ros_introspection/cmake.py:83-88 | a new command has the name given, no sections, no original text and is unchanged |
| CMakeDoc.RealSections | ros_introspection/src/ros_introspection/cmake.py:90-91 | the real sections are exactly the Section items, never more than the items |
| CMakeDoc.FindSection | ros_introspection/src/ros_introspection/cmake.py:93-97 | the position of the first real section named key, none exactly when no real section has that name |
| CMakeDoc.GetSection | ros_introspection/src/ros_introspection/cmake.py:93-97 | a real section named key, None exactly when no real section has that name |
| CMakeDoc.GetSections | ros_introspection/src/ros_introspection/cmake.py:99-100 | exactly the real sections named key |
| CMakeDoc.AddSection | ros_introspection/src/ros_introspection/cmake.py:102-104 | the items gain one section (key, values) at the end, all else kept, and the command is changed |
| CMakeDoc.Add | ros_introspection/src/ros_introspection/cmake.py:106-109 | a section is appended and the command changed; nothing happens for None |
| CMakeDoc.FirstToken | ros_introspection/src/ros_introspection/cmake.py:111-112 | defined exactly when the first real section has a value, and then it is that value |
| CMakeDoc.AddTokenAppends | ros_introspection/src/ros_introspection/cmake.py:114-127 | after add_token the command's tokens are the old tokens followed by the new one, and the command is changed |
| CMakeDoc.CommandTextShape | ros_introspection/src/ros_introspection/cmake.py:129-141 | an unchanged command prints its original text; any other prints name, pre_paren and '(' first and ')' last, with ')' on its own line when the text spans lines |
| CMakeDoc.ContentsTextAppend | ros_introspection/src/ros_introspection/cmake.py:330-331 | the printed form of two content lists joined is the two printed forms joined |
| CMakeFile.Index | ros_introspection/src/ros_introspection/cmake.py:161-166 | content_map lists, for each name, the ids of the top-level commands of that name (groups under 'group') in order, and holds a key exactly when that list is non-empty |
| CMakeFile.NewCMake | ros_introspection/src/ros_introspection/cmake.py:155-167 | the constructor keeps contents and depth and builds that index |
| CMakeFile.NewCMakeConsistent | ros_introspection/src/ros_introspection/cmake.py:155-167 | a document so built, with distinct ids, satisfies the index invariant |
| CMakeFile.ItemUnder | ros_introspection/src/ros_introspection/cmake.py:161-166 | an id resolves to an item exactly when it is filed under the name, and the item is in contents under that name |
| CMakeFile.ResolvedComplete | ros_introspection/src/ros_introspection/cmake.py:161-166 | under the invariant every reference in content_map resolves to an object in contents |
| CMakeFile.KeyLeTotal | ros_introspection/src/ros_introspection/cmake.py:191 | the comparison of sort keys (tuples with None below every number) is total |
| CMakeFile.KeyLeTrans | ros_introspection/src/ros_introspection/cmake.py:191 | the comparison of sort keys is transitive |
| CMakeFile.SortKeySpec | ros_introspection/src/ros_introspection/cmake.py:27-44 | None sorts after everything; a group sorts at 'group' by its first section name; a build target appends its first token to the anchors if missing and sorts by that token's position; others sort by ordering index |
| CMakeFile.BuildTargetsSpec | ros_introspection/src/ros_introspection/cmake.py:254-262 | fails exactly when some build-target command has no first token; otherwise it extends the list with each new first token, keeps it duplicate-free, and holds exactly those tokens |
| CMakeFile.OrderedBuildTargets | ros_introspection/src/ros_introspection/cmake.py:254-262 | the loop computes the build-target list of the whole contents |
| CMakeFile.BuildTargetsKeyed | ros_introspection/src/ros_introspection/cmake.py:254-262 | every build target's first token is among the targets that list computes |
| CMakeFile.InsertionIndex | ros_introspection/src/ros_introspection/cmake.py:181-195 | the loop computes the insertion index of the recursive definition, failing exactly as it does |
| CMakeFile.ScanFromSpec | ros_introspection/src/ros_introspection/cmake.py:187-195 | the scan never fails once items are keyed; every non-string item before the result sorts at or below the new key, and the result is followed by strings and then an item above it, or is the end |
| CMakeFile.ScanFromAfterItem | ros_introspection/src/ros_introspection/cmake.py:187-195 | whatever the keys, a scan started at 0 or just after a non-string item ends at len(contents), at 0, or just after a non-string item (i_index moves only past a command or group) |
| CMakeFile.InsertionIndexSpec | ros_introspection/src/ros_introspection/cmake.py:181-195 | get_insertion_index succeeds for a keyable command; the index is one past the last item at or below the new key before the first item above it, so unless it is len(contents) it is 0 or directly follows a non-string item, never a string |
| CMakeFile.Indent | ros_introspection/src/ros_introspection/cmake.py:203 | `'  ' * depth` is 2*depth spaces |
| CMakeFile.AddCommand | ros_introspection/src/ros_introspection/cmake.py:197-214 | add_command splices the item in at the insertion index and files it in content_map |
| CMakeFile.SplicedShape | ros_introspection/src/ros_introspection/cmake.py:199-207 | what add_command splices in holds the new item and otherwise only strings |
| CMakeFile.AddCommandConsistent | ros_introspection/src/ros_introspection/cmake.py:197-214 | add_command of an item with a new identity keeps the index invariant |
| CMakeFile.ResolvedAfterSplice | ros_introspection/src/ros_introspection/cmake.py:209-214 | after add_command the entry for each name resolves to the old list, followed by the new item when it is filed under that name |
| CMakeFile.FindItem | ros_introspection/src/ros_introspection/cmake.py:218 | the position of the first item that is the command (by identity), none exactly when there is none |
| CMakeFile.RemoveId | ros_introspection/src/ros_introspection/cmake.py:219 | list.remove succeeds exactly when the reference is present, and removes one occurrence |
| CMakeFile.RemoveSucceeds | ros_introspection/src/ros_introspection/cmake.py:216-219 | remove_command of a command in contents succeeds and removes exactly that item |
| CMakeFile.RemoveCommandConsistent | ros_introspection/src/ros_introspection/cmake.py:216-219 | remove_command keeps the index invariant, and the command is then neither in contents nor in content_map |
| CMakeFile.AddThenRemove | ros_introspection/src/ros_introspection/cmake.py:197-219 | removing a command just added restores content_map and depth; contents differ only by strings spliced in |
| CMakeQuery.ProjectName | ros_introspection/src/ros_introspection/cmake.py:169-173 | '' without a project command, else the first token of the first one; it fails when that command has no tokens |
| CMakeQuery.ResolveVariables | ros_introspection/src/ros_introspection/cmake.py:175-179 | resolve_variables fails exactly when the project name does |
| CMakeQuery.ResolveWithoutVariable | ros_introspection/src/ros_introspection/cmake.py:175-179 | a string without ${PROJECT_NAME} is unchanged |
| CMakeQuery.ResolveVariableItself | ros_introspection/src/ros_introspection/cmake.py:175-179 | ${PROJECT_NAME} resolves to the project name |
| CMakeQuery.ResolveAll | ros_introspection/src/ros_introspection/cmake.py:224 | each token is resolved, position by position |
| CMakeQuery.RuleOf | ros_introspection/src/ros_introspection/cmake.py:224-227 | a command's rule is its first resolved token followed by its other resolved tokens |
| CMakeQuery.SourceBuildRules | ros_introspection/src/ros_introspection/cmake.py:221-228 | the loop builds the rules of the commands filed under the tag |
| CMakeQuery.RulesOk | ros_introspection/src/ros_introspection/cmake.py:221-228 | the rules are built exactly when every command yields a rule |
| CMakeQuery.RulesTargets | ros_introspection/src/ros_introspection/cmake.py:221-228 | the rules' keys are exactly the targets the commands name |
| CMakeQuery.RulesLastWins | ros_introspection/src/ros_introspection/cmake.py:221-228 | a target maps to the sources of the last command naming it |
| CMakeQuery.SourcesOfLastRule | ros_introspection/src/ros_introspection/cmake.py:230-234 | the sources of the last rule for a target are among the collected sources |
| CMakeQuery.Sources | ros_introspection/src/ros_introspection/cmake.py:230-234 | the sources are exactly the values of every rule |
| CMakeQuery.SourceHelper | ros_introspection/src/ros_introspection/cmake.py:230-240 | the loop collects the sources of the rules for the tag |
| CMakeQuery.TargetNames | ros_introspection/src/ros_introspection/cmake.py:242-246 | get_libraries and get_executables are the targets the commands name, failing exactly when the rules do |
| CMakeQuery.TargetBuildRules | ros_introspection/src/ros_introspection/cmake.py:248-252 | the merged rules hold every library and executable target; executables win over libraries of the same name |
| CMakeQuery.TestGroups | ros_introspection/src/ros_introspection/cmake.py:264-271 | the test groups are exactly the groups opened by if(CATKIN_ENABLE_TESTING ...) |
| CMakeQuery.TestSections | ros_introspection/src/ros_introspection/cmake.py:264-271 | the loop returns the nested documents of those groups, in order, and fails as the test does |
| CMakeQuery.UnionAllMembers | ros_introspection/src/ros_introspection/cmake.py:273-278 | a union of source sets holds exactly the members of each set and fails when one does |
| CMakeQuery.UnionSources | ros_introspection/src/ros_introspection/cmake.py:273-278 | the loop computes that union over the test sections |
| CMakeQuery.TestSource | ros_introspection/src/ros_introspection/cmake.py:273-278 | get_test_source is the union of the library and executable sources of every test section |
| CMakeQuery.GetTestSection | ros_introspection/src/ros_introspection/cmake.py:280-297 | the first test section is returned when one exists, and nothing changes unless asked to create one |
| CMakeQuery.NewTestGroupIsTest | ros_introspection/src/ros_introspection/cmake.py:288-295 | the group built is a test group |
| CMakeQuery.GetTestSectionCreates | ros_introspection/src/ros_introspection/cmake.py:280-297 | without a test section, creating one keeps the index invariant and leaves that one group as the only test group |
| CMakeEdit.ReplaceAll | ros_introspection/src/ros_introspection/cmake.py:324-328 | an in-place edit of a command replaces the item with its identity, position by position, and nothing else |
| CMakeEdit.UpdateCmd | ros_introspection/src/ros_introspection/cmake.py:324-328 | the edit leaves content_map and depth alone |
| CMakeEdit.UpdateConsistent | ros_introspection/src/ros_introspection/cmake.py:324-328 | the edit keeps the index invariant |
| CMakeEdit.ResolvedAfterUpdate | ros_introspection/src/ros_introspection/cmake.py:324-328 | the objects content_map refers to are the edited ones |
| CMakeEdit.UpdateSelf | ros_introspection/src/ros_introspection/cmake.py:324-328 | writing a command back unchanged changes nothing |
| CMakeEdit.FirstWithSectionSpec | ros_introspection/src/ros_introspection/cmake.py:305-308 | the first command in content_map order with the section, or none when no command has it |
| CMakeEdit.CommandSection | ros_introspection/src/ros_introspection/cmake.py:299-309 | nothing when no command has the name; else the first command with the section, and the section's position, or the first command |
| CMakeEdit.GetCommandSection | ros_introspection/src/ros_introspection/cmake.py:299-309 | the loop computes that answer |
| CMakeEdit.Missing | ros_introspection/src/ros_introspection/cmake.py:326 | the needed items are exactly the items not among the values, in order |
| CMakeEdit.Arrange | ros_introspection/src/ros_introspection/cmake.py:324-327 | the added items are a sorted permutation |
| CMakeEdit.MergedSpec | ros_introspection/src/ros_introspection/cmake.py:323-327 | the values keep their old prefix, then the missing items sorted, so every item is among them |
| CMakeEdit.SectionCheck | ros_introspection/src/ros_introspection/cmake.py:314-315 | no items without zero_okay changes nothing |
| CMakeEdit.CheckFoundAt | ros_introspection/src/ros_introspection/cmake.py:325-328 | when the section exists its values are merged with the missing items |
| CMakeEdit.CheckFoundNone | ros_introspection/src/ros_introspection/cmake.py:323-324 | when the command lacks the section, a section of the sorted items is added |
| CMakeEdit.CheckFoundNew | ros_introspection/src/ros_introspection/cmake.py:319-324 | when no command exists, one is added and given the section |
| CMakeEdit.SectionCheckHolds | ros_introspection/src/ros_introspection/cmake.py:311-328 | afterwards get_command_section finds the command with the section holding the old values then the missing items, and the index invariant holds |
| CMakeEdit.SectionCheckStable | ros_introspection/src/ros_introspection/cmake.py:311-328 | when the section already holds every item nothing changes |
| CMakeEdit.SectionCheckIdempotent | ros_introspection/src/ros_introspection/cmake.py:311-328 | a second section_check with the same items changes nothing |
| CMakeLexer.WordToken | ros_introspection/src/ros_introspection/cmake_parser.py:12-16 | a word is 'caps' exactly when it matches ^[A-Z_]+$ |
| CMakeLexer.NextToken | ros_introspection/src/ros_introspection/cmake_parser.py:19-27 | the token is a non-empty prefix of the input; there is none exactly when no rule matches (a carriage return, an unclosed comment or string) |
| CMakeLexer.NextTokenOk | ros_introspection/src/ros_introspection/cmake_parser.py:19-27 | the token taken has the shape its kind's pattern requires |
| CMakeLexer.NextTokenShape | ros_introspection/src/ros_introspection/cmake_parser.py:19-27 | rules are tried in order and each matches as much as it can: a word or whitespace token is the whole run, a comment ends at the first newline, a string at the first closing quote |
| CMakeLexer.NextTokenExtend | ros_introspection/src/ros_introspection/cmake_parser.py:19-27 | the token at the start of a text is unchanged by appending text that starts with a break character |
| CMakeLexer.Lex | ros_introspection/src/ros_introspection/cmake_parser.py:74-77 | the tokens' texts join to the input; a remainder is a ValueError |
| CMakeLexer.ScanConcat | ros_introspection/src/ros_introspection/cmake_parser.py:19-27 | the scanned tokens followed by the remainder are the input |
| CMakeLexer.LexTokensOk | ros_introspection/src/ros_introspection/cmake_parser.py:19-27 | every token has the shape its kind's pattern requires; lexing fails exactly when a remainder is left |
| CMakeLexer.ScanMaximal | ros_introspection/src/ros_introspection/cmake_parser.py:24-26 | no word follows a word and no whitespace follows whitespace |
| CMakeLexer.ScanAppend | ros_introspection/src/ros_introspection/cmake_parser.py:19-27 | scanning text followed by a break character scans the two parts separately |
| CMakeLexer.LexRejectsOpenComment | ros_introspection/src/ros_introspection/cmake_parser.py:20 | a comment without a closing newline cannot be lexed |
| CMakeLexer.LexRejectsCarriageReturn | ros_introspection/src/ros_introspection/cmake_parser.py:24-26 | a carriage return outside a comment or string cannot be lexed |
| CMakeGroups.Closer | ros_introspection/src/ros_introspection/cmake_parser.py:44-57 | the position of the end command that brings the depth back to the base |
| CMakeGroups.MatchGroupsClosed | ros_introspection/src/ros_introspection/cmake_parser.py:38-57 | an opened group with a matching end becomes one CommandGroup of the recursively grouped body at the next depth |
| CMakeGroups.MatchGroupsUnclosed | ros_introspection/src/ros_introspection/cmake_parser.py:60-62 | an unclosed group's opening command is dropped and the rest left as it was |
| CMakeGroups.MatchCommandGroups | ros_introspection/src/ros_introspection/cmake_parser.py:30-64 | the loop computes the recursive grouping |
| CMakeGroups.MatchGroupsText | ros_introspection/src/ros_introspection/cmake_parser.py:30-64 | grouping keeps the printed text when every group is closed, and shortens it otherwise |
| CMakeGroups.MatchGroupsIds | ros_introspection/src/ros_introspection/cmake_parser.py:30-64 | grouping keeps identities increasing and within their range |
| CMakeParser.NextReal | ros_introspection/src/ros_introspection/cmake_parser.py:201-204 | the kind of the first token that is not whitespace, newline or comment |
| CMakeParser.Run | ros_introspection/src/ros_introspection/cmake_parser.py:140-143 | the length of the run of tokens of the given kinds at the front |
| CMakeParser.Values | ros_introspection/src/ros_introspection/cmake_parser.py:156-172 | the value loop stops before a paren or a caps word; it consumes a token when one is next, and fails with IndexError only on running out |
| CMakeParser.SectionShrinks | ros_introspection/src/ros_introspection/cmake_parser.py:135-182 | parse_section consumes a prefix of the tokens, at least one when a section starts, and fails only with IndexError |
| CMakeParser.AwesomeParser.constructor | ros_introspection/src/ros_introspection/cmake_parser.py:73-83 | a parser holds the tokens and no contents |
| CMakeParser.AwesomeParser.NextRealType | ros_introspection/src/ros_introspection/cmake_parser.py:201-204 | the loop finds the kind of the first real token |
| CMakeParser.AwesomeParser.Match | ros_introspection/src/ros_introspection/cmake_parser.py:184-193 | match pops and returns the first token when it has the kind asked for; a CMakeParseError when it has not; an IndexError on no tokens |
| CMakeParser.AwesomeParser.SkipRun | ros_introspection/src/ros_introspection/cmake_parser.py:140-152 | a skip loop pops exactly the run of tokens of the kinds named and returns their text |
| CMakeParser.AwesomeParser.ValueLoop | ros_introspection/src/ros_introspection/cmake_parser.py:156-172 | the value loop computes the values, the delimiters and the text the specification does |
| CMakeParser.AwesomeParser.ParseSection | ros_introspection/src/ros_introspection/cmake_parser.py:135-182 | parse_section pops what the specification consumes and builds the section it describes, with a val_sep among the delimiters seen |
| CMakeParser.BodyUnfold | ros_introspection/src/ros_introspection/cmake_parser.py:115-132 | one round of the command body loop: a section, a right or left paren, or a fragment |
| CMakeParser.BodyShrinks | ros_introspection/src/ros_introspection/cmake_parser.py:115-133 | the body loop consumes a non-empty prefix of the tokens |
| CMakeParser.AwesomeParser.CommandBody | ros_introspection/src/ros_introspection/cmake_parser.py:113-133 | the body loop pops what the specification consumes, collects its sections and fragments, and its text |
| CMakeParser.CommandSpec | ros_introspection/src/ros_introspection/cmake_parser.py:104-133 | parse_command consumes a non-empty prefix of the tokens |
| CMakeParser.CommandSpecText | ros_introspection/src/ros_introspection/cmake_parser.py:104-133 | a command's original text is exactly the text of the tokens it consumed, and is not empty |
| CMakeParser.AwesomeParser.ParseCommand | ros_introspection/src/ros_introspection/cmake_parser.py:104-133 | parse_command builds the command the specification describes, with a fresh identity, and fails as it does |
| CMakeParser.TopLevelUnfold | ros_introspection/src/ros_introspection/cmake_parser.py:84-95 | one round of the top-level loop: a string item, a command, or an Exception on any other token |
| CMakeParser.TopLevelText | ros_introspection/src/ros_introspection/cmake_parser.py:84-95 | the text of the parsed items is the text of the tokens |
| CMakeParser.AwesomeParser.ParseContents | ros_introspection/src/ros_introspection/cmake_parser.py:83-95 | the top-level loop consumes every token, builds the items the specification describes and numbers the commands in increasing order |
| CMakeParser.FitText | ros_introspection/src/ros_introspection/cmake_parser.py:129-131 | freshly parsed items print as their original text |
| CMakeParser.ParseCommands | ros_introspection/src/ros_introspection/cmake_parser.py:207-209 | parse_commands fails as lexing or parsing does; otherwise it returns the grouped parse, with identities in range |
| CMakeParser.ParseOneCommand | ros_introspection/src/ros_introspection/cmake_parser.py:212-215 | parse_command returns the single grouped item, and fails with AssertionError when there is not exactly one |
| CMakeParser.ParseRoundTrip | ros_introspection/src/ros_introspection/cmake_parser.py:207-209 | the parsed items print as the input; after grouping they do exactly when every group is closed |
| CMakePass.EditPass | roscompile/src/roscompile/cmake.py:22-36 | the loop over the commands filed under a name applies the step to each in turn, as the recursive definition does |
| CMakePass.EditEachSpec | roscompile/src/roscompile/cmake.py:22-36 | a pass over content_map[name] edits exactly the commands it visits, each once where it stands, and keeps every other item, the index and its invariant |
| CMakePass.FiledIds | ros_introspection/src/ros_introspection/cmake.py:161-166 | in a consistent file content_map[name] lists each identity once, and lists every command of that name |
| CMakePass.EditEachOk | roscompile/src/roscompile/cmake.py:22-36 | the pass fails only where a step fails on a command filed under the name |
| CMakePass.AddedIds | ros_introspection/src/ros_introspection/cmake.py:197-214 | add_command puts exactly one new identity into the contents |
| RoscompileCMake.RemoveEmptyStrings | roscompile/src/roscompile/cmake.py:327-328 | the filter keeps exactly the items that are not the empty string, in order |
| RoscompileCMake.RemoveEmptyStringsAppend | roscompile/src/roscompile/cmake.py:327-328 | filtering a concatenation is concatenating the filtered parts |
| RoscompileCMake.RemovePattern | roscompile/src/roscompile/cmake.py:136-139 | the section keeps exactly the values not containing the pattern, and the answer is whether a value went |
| RoscompileCMake.WithoutSpec | roscompile/src/roscompile/cmake.py:136-139 | the values kept keep their order, and a second removal of the same pattern removes nothing |
| RoscompileCMake.AlphabetizeCommand | roscompile/src/roscompile/cmake.py:243-249 | the loop over a command's real sections sorts those named in SHOULD_ALPHABETIZE and marks the command changed when one was out of order |
| RoscompileCMake.AlphabetizeSectionsHelper | roscompile/src/roscompile/cmake.py:241-251 | the pass over the contents does that to every command and recurses into group bodies |
| RoscompileCMake.AlphabetizedCommandSpec | roscompile/src/roscompile/cmake.py:241-251 | only sections named in SHOULD_ALPHABETIZE change, each to a sorted permutation of its values; the command is marked changed exactly when one was out of order |
| RoscompileCMake.AlphabetizedIdempotent | roscompile/src/roscompile/cmake.py:241-251 | a second pass changes nothing |
| RoscompileCMake.AlphabetizedConsistent | roscompile/src/roscompile/cmake.py:241-251 | the pass keeps every identity and name, and so the index invariant |
| RoscompileCMake.GetMatchingAddDepends | roscompile/src/roscompile/cmake.py:50-62 | the first add_dependencies command whose first token, as written or resolved, is the target or the resolved target; None when there is none; the first unreadable command raises |
| RoscompileCMake.WithNeededSpec | roscompile/src/roscompile/cmake.py:32-36 | the values keep the old ones as a prefix and gain, sorted, exactly the dependencies missing after resolution; afterwards every dependency is there |
| RoscompileCMake.DepEditKeeps | roscompile/src/roscompile/cmake.py:22-24 | the edit keeps identity and name and leaves alone every command that is not find_package(catkin REQUIRED ...) |
| RoscompileCMake.DepEditAddsComponents | roscompile/src/roscompile/cmake.py:25-30 | without COMPONENTS and with an empty REQUIRED, a new COMPONENTS section holds exactly the sorted dependencies |
| RoscompileCMake.DepEditMerges | roscompile/src/roscompile/cmake.py:25-36 | otherwise the section found gains the missing dependencies and nothing else changes; the command is marked changed exactly when something was appended |
| RoscompileCMake.CheckCMakeDependenciesHelper | roscompile/src/roscompile/cmake.py:13-38 | the method computes the document the specification function describes |
| RoscompileCMake.DependenciesCheckedSpec | roscompile/src/roscompile/cmake.py:13-38 | nothing happens without dependencies; otherwise the index stays consistent, a find_package command exists, and catkin_package lists every dependency in CATKIN_DEPENDS when asked |
| RoscompileCMake.FindPackagePass | roscompile/src/roscompile/cmake.py:22-36 | the loop edits every find_package command where it stands and nothing else |
| RoscompileCMake.PrettifyInstall | roscompile/src/roscompile/cmake.py:307-318 | the loop over one install command computes the edit the reference definitions describe, including the shared default style |
| RoscompileCMake.InstallEditSpec | roscompile/src/roscompile/cmake.py:307-318 | an install command keeps only its sections, in order, with names and values; later sections render with the prename given to them, or to the last style-sharing section |
| RoscompileCMake.InstallPrenameRule | roscompile/src/roscompile/cmake.py:310-318 | NEWLINE_PLUS_8 up to and including the first empty section and on every empty one, '' on a non-empty section after an empty one |
| RoscompileCMake.InstallPythonEditSpec | roscompile/src/roscompile/cmake.py:320-324 | the second item of catkin_install_python gets the prename, the command is marked changed only when it differed, and a missing or raw second item raises |
| RoscompileCMake.PrettifyInstalls | roscompile/src/roscompile/cmake.py:304-324 | the method computes the document the specification function describes |
| RoscompileCMake.InstallsPrettifiedSpec | roscompile/src/roscompile/cmake.py:304-324 | in a consistent file every install and catkin_install_python command is edited where it stands and nothing else changes |
| RoscompileCMake.Purged | roscompile/src/roscompile/cmake.py:337-339 | after the while-replace loop the ignorable does not occur, and the text shrank exactly when the loop ran |
| RoscompileCMake.Swept | roscompile/src/roscompile/cmake.py:336-339 | after the loops over every ignorable the last one is gone, and a loop ran exactly when the text shrank |
| RoscompileCMake.RemoveCMakeCommandCommentsHelper | roscompile/src/roscompile/cmake.py:331-342 | the method computes the command the specification function describes |
| RoscompileCMake.SweptCommandKeeps | roscompile/src/roscompile/cmake.py:331-342 | the helper keeps the command's Sections in order, and a command left unmarked is exactly as it was |
| RoscompileCMake.SweptCommandMarks | roscompile/src/roscompile/cmake.py:331-342 | the command is marked changed exactly when it was before or a raw string of it shrank |
| RoscompileCMake.SweptCommandClean | roscompile/src/roscompile/cmake.py:331-342 | a changed command has no empty string section and is not just a newline, and no raw string holds the last ignorable |
| RoscompileCMake.SweepCanRejoin | roscompile/src/roscompile/cmake.py:336-339 | removing a later ignorable can bring an earlier one together again, so only the last is sure to be gone |
| RoscompileCMake.RemoveCMakeCommentsHelper | roscompile/src/roscompile/cmake.py:345-356 | the method computes the document the specification function describes |
| RoscompileCMake.SweptDocClean | roscompile/src/roscompile/cmake.py:345-356 | afterwards the last ignorable is gone from every raw string at any depth and no empty string item is left |
| RoscompileCMake.SweptDocConsistent | roscompile/src/roscompile/cmake.py:345-356 | the pass keeps every identity and name, and so the index invariant |
| RoscompileCMake.RemoveEmptyCMakeLines | roscompile/src/roscompile/cmake.py:368-375 | the loop over the copy contents[:-2], reading the live list ahead, computes the document the specification function describes |
| RoscompileCMake.EmptyLinesRemovedConsistent | roscompile/src/roscompile/cmake.py:368-375 | every command and group is kept in order, and so the index invariant |
| RoscompileCMake.EmptyLinesRemovedKeeps | roscompile/src/roscompile/cmake.py:368-375 | only blank lines and empty strings can go |
| RoscompileCMake.EmptyLinesRemovedExactly | roscompile/src/roscompile/cmake.py:368-375 | a blank line is dropped exactly when it follows a line end and comes before another blank line; the rest stay in order |
| RoscompileCMake.EmptyLinesCollapsed | roscompile/src/roscompile/cmake.py:368-375 | afterwards no blank line follows a line end and precedes another blank line |
| Installs.InstallTypeOfSpec | roscompile/src/roscompile/installs.py:15-28 | the destination maps are disjoint, so a destination has at most one install type whatever the lookup order |
| Installs.GetInstallType | roscompile/src/roscompile/installs.py:24-28 | the loop over the configurations returns the type whose map holds the destination, else None |
| Installs.GetInstallTypes | roscompile/src/roscompile/installs.py:31-47 | the loop computes the types the DESTINATION sections name |
| Installs.TypesFromSpec | roscompile/src/roscompile/installs.py:31-47 | get_install_types fails exactly when a DESTINATION has no value, and otherwise holds exactly the types named, subfolder cut out |
| Installs.GetMultiwordSection | roscompile/src/roscompile/installs.py:50-71 | the loop returns the section the specification function finds |
| Installs.MultiwordFromSpec | roscompile/src/roscompile/installs.py:50-71 | a section is returned only when its name is the last word and the real sections just before it match the other words in order |
| Installs.MultiwordNoRetest | roscompile/src/roscompile/installs.py:69-71 | a mismatch resets the count without retesting: ARCHIVE, ARCHIVE, DESTINATION does not yield ARCHIVE DESTINATION |
| Installs.CheckComplexShape | roscompile/src/roscompile/installs.py:82-99 | a value already present changes nothing; otherwise it is appended once and the command marked changed, or a new section holds it |
| Installs.CheckComplexSpec | roscompile/src/roscompile/installs.py:82-99 | afterwards the value is in a section for the key, and the command has only grown |
| Installs.InstallSections | roscompile/src/roscompile/installs.py:102-111 | the loops perform the checks of the corrected destination computation |
| Installs.ChecksSpec | roscompile/src/roscompile/installs.py:102-111 | the checks are exactly the section names of the map, each with its destination joined once with the subfolder |
| Installs.CheckAllSpec | roscompile/src/roscompile/installs.py:102-111 | after install_sections every check holds, and the command has only grown |
| Installs.InstallSectionsDoubleJoin | roscompile/src/roscompile/installs.py:107-111 | as written the second section name of a destination gets the subfolder joined twice |
| Installs.RemoveInstallSection | roscompile/src/roscompile/installs.py:114-134 | the method computes the command the specification function describes |
| Installs.FirstWordsSpec | roscompile/src/roscompile/installs.py:115-120 | empty_sections_to_remove maps exactly the first words of two-word section names, each to a destination that has one |
| Installs.PairsFromSpec | roscompile/src/roscompile/installs.py:121-130 | the scan raises exactly when the last real section opens a pair, and lists exactly the sections of the pairs |
| Installs.PairsRemovedSpec | roscompile/src/roscompile/installs.py:114-134 | exactly the pairs (empty first-word section then DESTINATION holding just its destination) go; fragments and other sections stay in order |
| Installs.PairsRemovedChanged | roscompile/src/roscompile/installs.py:131-134 | the command is marked changed, and loses items, exactly when a pair was removed |
| Installs.FixDoubleDirectory | roscompile/src/roscompile/installs.py:220-234 | the body for one command computes the edit the specification function describes |
| Installs.TrimmedUndoesJoin | roscompile/src/roscompile/installs.py:233 | the slice takes off exactly the '/' + directory that a join put on |
| Installs.DoubleFixedKeeps | roscompile/src/roscompile/installs.py:219-234 | only first values of DESTINATION sections change, each to a prefix of itself; the command is marked changed when one did |
| Installs.DoubleFixedShortens | roscompile/src/roscompile/installs.py:226-234 | a DESTINATION ending in a directory without final '/' loses that ending and its separator; with a final '/' nothing changes |
| Installs.FixDoubleDirectoryInstalls | roscompile/src/roscompile/installs.py:219-234 | the method computes the document the specification function describes |
| Installs.DoubleDirectoryInstallsSpec | roscompile/src/roscompile/installs.py:219-234 | in a consistent file every install command is edited where it stands and nothing else changes |
| InstallCheck.GetCommandsByType | roscompile/src/roscompile/installs.py:137-142 | the loop computes the commands of the type |
| InstallCheck.ByTypeSpec | roscompile/src/roscompile/installs.py:137-142 | exactly the install commands that use the type, in content_map order |
| InstallCheck.MatchesPatternsSpec | roscompile/src/roscompile/installs.py:74-79 | without empty patterns an item matches exactly when one of the unquoted patterns does |
| InstallCheck.NonMatchingSpec | roscompile/src/roscompile/installs.py:170-174 | the loop keeps, in order, exactly the items no pattern matches |
| InstallCheck.RemoveByType | roscompile/src/roscompile/installs.py:150-156 | the loop computes the document the specification function describes |
| InstallCheck.RemovedByTypeSpec | roscompile/src/roscompile/installs.py:150-156 | with no items the index stays consistent, no identity is added and every item not of the type stays |
| InstallCheck.RemovedByTypeEach | roscompile/src/roscompile/installs.py:150-156 | a command of exactly one type is removed; one of several is stripped of the sections remove_install_section drops |
| InstallCheck.InstallSectionCheck | roscompile/src/roscompile/installs.py:145-192 | the method computes the document the specification function describes |
| InstallCheck.PrunedSpec | roscompile/src/roscompile/installs.py:177-178 | the section keeps, in order, exactly its values that are to be installed, and the command is marked changed when a value went |
| InstallCheck.PruneThenAppend | roscompile/src/roscompile/installs.py:177-191 | the items left are exactly those the section lacked; appended, the section holds exactly the items |
| InstallCheck.PrunedAsWrittenLost | roscompile/src/roscompile/installs.py:177 | as written a pruned command keeps its original text, so the stale target is still printed |
| InstallCheck.PrunedRendered | roscompile/src/roscompile/installs.py:177 | with the corrected pruning a command that lost a value is printed from its sections |
| InstallCheck.VisitSpec | roscompile/src/roscompile/installs.py:160-178 | one pass of the loop keeps the index consistent and the identities, and never adds an item to install |
| InstallCheck.FinishedNew | roscompile/src/roscompile/installs.py:184-188 | without a command of the type a new install command lists the items and holds every install section of the type |
| InstallCheck.FinishedAppend | roscompile/src/roscompile/installs.py:189-192 | otherwise the items left are appended to the section found in the last command, which is marked changed |
| InstallCheck.InstallSectionCheckedConsistent | roscompile/src/roscompile/installs.py:145-192 | install_section_check keeps content_map in step with contents |
| InstallCheck.LeftoversJoined | roscompile/src/roscompile/installs.py:159-178 | every item left to install is one of the items joined to the subfolder |
| Ros2CMake.UpdateDestinations | magical_ros2_conversion_tool/src/magical_ros2_conversion_tool/cmake.py:68-74 | the nested loops compute the command the specification function describes |
| Ros2CMake.VarsUpdatedSpec | magical_ros2_conversion_tool/src/magical_ros2_conversion_tool/cmake.py:68-74 | only DESTINATION values change, each catkin variable to its mapped text; the command is marked changed exactly when one was there; none is left |
| Ros2CMake.VarsUpdatedIdempotent | magical_ros2_conversion_tool/src/magical_ros2_conversion_tool/cmake.py:68-74 | a second rewrite changes nothing |
| Ros2CMake.UpdateInstallationVariables | magical_ros2_conversion_tool/src/magical_ros2_conversion_tool/cmake.py:68-74 | the pass computes the document the specification function describes |
| Ros2CMake.InstallationVariablesSpec | magical_ros2_conversion_tool/src/magical_ros2_conversion_tool/cmake.py:68-74 | in a consistent file every install command is rewritten where it stands, the index is kept, nothing else changes |
| Ros2CMake.FlagBitsSpec | magical_ros2_conversion_tool/src/magical_ros2_conversion_tool/cmake.py:80-83 | the flags are the non-empty ';'-separated parts of the unquoted value with one -std=c++11 removed |
| Ros2CMake.FlagsRoundTrip | magical_ros2_conversion_tool/src/magical_ros2_conversion_tool/cmake.py:80-88 | reading the quoted, ';'-joined flags back gives the same flags |
| Ros2CMake.FlagStepStable | magical_ros2_conversion_tool/src/magical_ros2_conversion_tool/cmake.py:80-88 | a rewritten command reads back the same flags, and a second step leaves it alone |
| Ros2CMake.RemoveCpp11Flag | magical_ros2_conversion_tool/src/magical_ros2_conversion_tool/cmake.py:77-90 | the loop and the removals compute the document the specification function describes |
| Ros2CMake.Cpp11FlagOk | magical_ros2_conversion_tool/src/magical_ros2_conversion_tool/cmake.py:77-90 | in a consistent file the pass fails only on a command without a COMPILE_OPTIONS value |
| Ros2CMake.Cpp11FlagSpec | magical_ros2_conversion_tool/src/magical_ros2_conversion_tool/cmake.py:77-90 | a command left with no flag is removed, any other has its flags rewritten where it stands, other items stay, the index stays consistent |
| Ros2CMake.RemoveFirstAt | magical_ros2_conversion_tool/src/magical_ros2_conversion_tool/cmake.py:102 | list.remove takes out the first occurrence and nothing else |
| Ros2CMake.IncludeExportedSpec | magical_ros2_conversion_tool/src/magical_ros2_conversion_tool/cmake.py:97-104 | one ${catkin_INCLUDE_DIRS} goes from the first section, changed only when it was there; no sections is an IndexError, a raw first item an AttributeError |
| Ros2CMake.SetUpIncludeExports | magical_ros2_conversion_tool/src/magical_ros2_conversion_tool/cmake.py:97-104 | the pass computes the document the specification function describes |
| Ros2CMake.IncludeExportsOk | magical_ros2_conversion_tool/src/magical_ros2_conversion_tool/cmake.py:97-104 | in a consistent file whose commands open with a section the pass succeeds |
| Ros2CMake.IncludeExportsSpec | magical_ros2_conversion_tool/src/magical_ros2_conversion_tool/cmake.py:97-104 | every include_directories command is edited where it stands and nothing else changes |
| Ros2CMake.RenameCommands | magical_ros2_conversion_tool/src/magical_ros2_conversion_tool/cmake.py:107-114 | the loop computes the document the specification function describes |
| Ros2CMake.RenamedSpec | magical_ros2_conversion_tool/src/magical_ros2_conversion_tool/cmake.py:107-114 | in a consistent file exactly the commands of the source name take the target name and are marked changed, position by position |
| Ros2CMake.RenamedConsistent | magical_ros2_conversion_tool/src/magical_ros2_conversion_tool/cmake.py:107-114 | the target key lists the renamed commands, the source key is gone, and the index invariant holds |
| Ros2CMake.LibsFixedSpec | magical_ros2_conversion_tool/src/magical_ros2_conversion_tool/cmake.py:120-127 | in a section holding ${catkin_LIBRARIES} its first occurrence goes and the quoted dependencies are appended, marking the command changed; other sections stay |
| Ros2CMake.FixCatkinLibraries | magical_ros2_conversion_tool/src/magical_ros2_conversion_tool/cmake.py:120-127 | the loop computes the command the specification function describes |
| Ros2CMake.SetUpCatkinLibs | magical_ros2_conversion_tool/src/magical_ros2_conversion_tool/cmake.py:117-127 | the renaming and the pass compute the document the specification function describes |
| Ros2CMake.CatkinLibsSpec | magical_ros2_conversion_tool/src/magical_ros2_conversion_tool/cmake.py:117-127 | every target_link_libraries command becomes ament_target_dependencies with its libraries fixed, where it stands; nothing else changes |
| Ros2CMake.RemovedAllSpec | magical_ros2_conversion_tool/src/magical_ros2_conversion_tool/cmake.py:89-90 | removing the listed commands keeps the index consistent, takes each listed identity out and leaves every other item |
| Ros2CMake.RemovedAllOk | magical_ros2_conversion_tool/src/magical_ros2_conversion_tool/cmake.py:89-90 | the removals succeed when each identity names a command filed under the name |
| Ros2CMake.WantedSpec | magical_ros2_conversion_tool/src/magical_ros2_conversion_tool/cmake.py:37-43 | the packages wanted are the REPLACE_PACKAGES successors of the components other than message_generation, which is never wanted; ament_cmake stays first |
| Ros2CMake.RemoveCatkinFinds | magical_ros2_conversion_tool/src/magical_ros2_conversion_tool/cmake.py:24-35 | the loop over a copy of the list computes the result of the corrected loop |
| Ros2CMake.AddFindPackages | magical_ros2_conversion_tool/src/magical_ros2_conversion_tool/cmake.py:37-43 | the loop adds one find_package per wanted package, as the specification function does |
| Ros2CMake.SplitFindPackageCommands | magical_ros2_conversion_tool/src/magical_ros2_conversion_tool/cmake.py:21-43 | the two loops compute the document the specification function describes |
| Ros2CMake.CatkinFindsSpec | magical_ros2_conversion_tool/src/magical_ros2_conversion_tool/cmake.py:24-35 | in a consistent file the first loop removes every catkin find_package, keeps every other item, and collects exactly the components they list after the given ones |
| Ros2CMake.FindPackageShape | magical_ros2_conversion_tool/src/magical_ros2_conversion_tool/cmake.py:40-43 | a new command finds exactly its package, as REQUIRED, with no components |
| Ros2CMake.FindPackagesAddedSpec | magical_ros2_conversion_tool/src/magical_ros2_conversion_tool/cmake.py:37-43 | the k-th package is found by a new find_package command with the k-th fresh identity; nothing earlier changes; the index stays consistent |
| Ros2CMake.FindPackagesSplitSpec | magical_ros2_conversion_tool/src/magical_ros2_conversion_tool/cmake.py:21-43 | catkin find_package commands are gone, other items stay, ament_cmake comes first, and each wanted package has its own find_package(X REQUIRED) |
| Ros2CMake.SecondCatkinFindKept | magical_ros2_conversion_tool/src/magical_ros2_conversion_tool/cmake.py:24-35 | as written, of two catkin find_package commands in a row the second survives |
| Ros2CMake.BothCatkinFindsRemoved | magical_ros2_conversion_tool/src/magical_ros2_conversion_tool/cmake.py:24-35 | the corrected loop removes both |
| Ros2CMake.RemoveAllCommands | magical_ros2_conversion_tool/src/magical_ros2_conversion_tool/cmake.py:150-152 | the loop computes the document the specification function describes |
| Ros2CMake.AllCommandsRemovedSpec | magical_ros2_conversion_tool/src/magical_ros2_conversion_tool/cmake.py:150-152 | no command of the name is left, the index stays consistent, every item filed elsewhere stays |
| RoscompileCMake.DepSection | roscompile/src/roscompile/cmake.py:25-28 | the section that receives packages: COMPONENTS, else REQUIRED when it already lists packages, else none |
| RoscompileCMake.SetPrename | roscompile/src/roscompile/cmake.py:313-318 | setting the prename changes a section's own style, or the one shared default style, and so every section sharing it |
| RoscompileCMake.LastShared | roscompile/src/roscompile/cmake.py:311-318 | the last section after the first that shares the default style, whose prename is the one every sharing section prints |
| Installs.GrownHolds | roscompile/src/roscompile/installs.py:82-99 | growing a command keeps every value where it was |
| Installs.CheckAllFails | roscompile/src/roscompile/installs.py:102-111 | install_sections fails only on a section name with no words |
| Installs.ConfigNamesWordy | roscompile/src/roscompile/installs.py:15-21 | every section name in INSTALL_CONFIGS has words, so install_sections never fails on them |
| Installs.EmptySectionsToRemove | roscompile/src/roscompile/installs.py:115-120 | the map holds a first word exactly when a two-word section name of a destination starts with it |
| Installs.RemoveAll | roscompile/src/roscompile/installs.py:132-133 | removing each listed section by identity leaves every other item where it was, in order |
| Installs.DropRealSpec | roscompile/src/roscompile/installs.py:132-133 | removal keeps every fragment and exactly the real sections not listed |
| Installs.KeepIdxSpec | roscompile/src/roscompile/installs.py:121-133 | every unlisted real section is kept, and something is dropped exactly when a position is listed |
| Installs.PairsRemovedFails | roscompile/src/roscompile/installs.py:121-130 | remove_install_section raises exactly when the last real section opens a pair |
| InstallCheck.DropOrStripSpec | roscompile/src/roscompile/installs.py:150-156 | removing or stripping one command keeps the index consistent, adds no identity and leaves every other item |
| InstallCheck.DropOrStripVisited | roscompile/src/roscompile/installs.py:150-156 | the visited command is gone when it installs only this type, otherwise stripped of the sections remove_install_section drops |
| InstallCheck.Pruned | roscompile/src/roscompile/installs.py:177 | the corrected pruning marks the command changed when a value was dropped |
| InstallCheck.NewCommandListed | roscompile/src/roscompile/installs.py:184-188 | the new command lists the items and, after install_sections, holds every check |
| InstallCheck.FinishedConsistent | roscompile/src/roscompile/installs.py:180-192 | the tail of install_section_check keeps the index consistent |
| Ros2CMake.FlagsSetRead | magical_ros2_conversion_tool/src/magical_ros2_conversion_tool/cmake.py:86-87 | once set, COMPILE_OPTIONS reads back as the one quoted value, and setting the same flags again changes nothing |
| PackageXml.OrderingIndex | ros_introspection/src/ros_introspection/package_xml.py:9-26 | the position of the first ORDERING entry naming the tag (a grouped entry gives all its names one position), and len(ORDERING) for a tag it does not name |
| PackageXml.PeopleShareIndex | ros_introspection/src/ros_introspection/package_xml.py:9-10 | maintainer, license, author and url all rank 3 |
| PackageXml.PackageTagIndex | ros_introspection/src/ros_introspection/package_xml.py:29-32 | the index of the first occurrence of `<package` in the text, 0 when there is none |
| PackageXml.CountTrailingSpaces | ros_introspection/src/ros_introspection/package_xml.py:35-39 | the loop counts the trailing spaces of the string |
| PackageXml.TrailingSpacesSpec | ros_introspection/src/ros_introspection/package_xml.py:35-39 | the counted characters are the last ones and all spaces, and the character before them, if any, is not a space |
| PackageXml.PackageKeysSpec | ros_introspection/src/ros_introspection/package_xml.py:95-105 | build reads build_depend (and depend in format 2); run reads run_depend in format 1 and depend and exec_depend in format 2; test reads test_depend |
| PackageXml.PackagesSpec | ros_introspection/src/ros_introspection/package_xml.py:89-110 | a package is returned exactly when a root child element with one of the mode's tags holds it as text |
| PackageXml.RunsSpec | ros_introspection/src/ros_introspection/package_xml.py:115-144 | the runs are the maximal blocks of equally named elements in document order, text nodes neither starting nor breaking a run |
| PackageXml.IndexKeys | ros_introspection/src/ros_introspection/package_xml.py:115-144 | get_child_indexes has an entry for a tag exactly when some element has that tag |
| PackageXml.IndexLast | ros_introspection/src/ros_introspection/package_xml.py:115-144 | the last run of a tag ends at its last element: no element after it has that tag |
| PackageXml.InsertionIndexSpec | ros_introspection/src/ros_introspection/package_xml.py:146-172 | after the last element with the tag when there is one; otherwise after the last element of the closest tag ranked before it, the latest among equal ranks; len(children) exactly when no element ranks before it |
| PackageXmlDoc.TallySpec | ros_introspection/src/ros_introspection/package_xml.py:74-87 | a width is counted exactly when some text child ends in that many spaces |
| PackageXmlDoc.MostFrequentWidth | ros_introspection/src/ros_introspection/package_xml.py:77-87 | 4 when there is no text child, otherwise a width that no other width of a text child outnumbers |
| PackageXmlDoc.PackageXML.constructor | ros_introspection/src/ros_introspection/package_xml.py:43-51 | the children as read, no tab width computed yet, and format 1 unless the root carries a format attribute |
| PackageXmlDoc.PackageXML.StdTab | ros_introspection/src/ros_introspection/package_xml.py:74-87 | the width is computed once and cached: a later call returns the cached width and the children are untouched |
| PackageXmlDoc.ChildIndexesStep | ros_introspection/src/ros_introspection/package_xml.py:120-142 | one pass of the loop keeps the runs found so far: a text child changes nothing, the same tag extends the run, another tag closes it and opens a new one |
| PackageXmlDoc.PackageXML.GetChildIndexes | ros_introspection/src/ros_introspection/package_xml.py:115-144 | the loop returns the runs of every tag, as PackageXml.RunsSpec describes them |
| PackageXmlDoc.ClosestEarlierTag | ros_introspection/src/ros_introspection/package_xml.py:159-167 | the loop finds a tag of highest rank below the bound, the latest last run breaking ties between equal ranks, or none when no tag ranks below |
| PackageXmlDoc.BestGivesInsertionIndex | ros_introspection/src/ros_introspection/package_xml.py:168-172 | with the tag absent, the answer is the end of the best tag's last run |
| PackageXmlDoc.PackageXML.GetInsertionIndex | ros_introspection/src/ros_introspection/package_xml.py:146-172 | the method returns the insertion index that PackageXml.InsertionIndexSpec characterises |
| PackageXmlDoc.AsWrittenDependsOnOrder | ros_introspection/src/ros_introspection/package_xml.py:165 | as written, the same document gives the name or the version as best tag depending on the order the dictionary is visited in |
| PackageXmlDoc.UnorderedInsertion | ros_introspection/src/ros_introspection/package_xml.py:146-172 | corrected, a description goes right after the version whatever the order |
| PackageXmlDoc.PackageXML.PackagesByTag | ros_introspection/src/ros_introspection/package_xml.py:89-93 | the texts of the elements with the tag, each package as often as it is listed |
| PackageXmlDoc.PackageXML.GetPackages | ros_introspection/src/ros_introspection/package_xml.py:95-110 | the union over the mode's tags, as PackageXml.PackagesSpec describes it |
| PackageXmlDoc.PackageXML.TabElement | ros_introspection/src/ros_introspection/package_xml.py:112-113 | a text node of a newline and std_tab times tabs spaces; the children are untouched |
| PackageXmlDoc.SplicedFrame | ros_introspection/src/ros_introspection/package_xml.py:174-184 | the children before the insertion point and after it are kept in order, with an indent and a new tag in between for each tag |
| PackageXmlDoc.SplicedCount | ros_introspection/src/ros_introspection/package_xml.py:174-184 | every package of every tag is listed as often as before plus as often as the new tags list it |
| PackageXmlDoc.PackageXML.InsertNewTags | ros_introspection/src/ros_introspection/package_xml.py:174-184 | nothing changes for no tags; otherwise the tags are spliced in after the insertion index of the first one |
| PackageXmlDoc.PackageXML.IndentTags | ros_introspection/src/ros_introspection/package_xml.py:180-183 | each tag is preceded by an indent of the standard tab, which once cached stays; the children are untouched |
| PackageXmlDoc.PackagesInsertedCount | ros_introspection/src/ros_introspection/package_xml.py:186-193 | each requested package is listed once more under the tag, nothing else changes count |
| PackageXmlDoc.PackagesInsertedSets | ros_introspection/src/ros_introspection/package_xml.py:186-193 | the packages read under any list of tags gain the request exactly when the list holds the tag |
| PackageXmlDoc.PackageXML.InsertNewPackages | ros_introspection/src/ros_introspection/package_xml.py:186-193 | the children gain one element per package, in sorted order, at the tag's insertion index |
| PackageXmlDoc.AddedPackages | ros_introspection/src/ros_introspection/package_xml.py:195-217 | build gains the build request (and, in format 2 when exec_depend is preferred, the new run packages); run gains the run request and, in format 1, every build package, otherwise the new build packages; test gains the test request minus existing and new build packages |
| PackageXmlDoc.AddedNoDuplicates | ros_introspection/src/ros_introspection/package_xml.py:195-217 | a package listed at most once under a tag is still listed at most once there |
| PackageXmlDoc.DependStepsFresh | ros_introspection/src/ros_introspection/package_xml.py:199-213 | each insertion step adds only packages not yet read under its mode |
| PackageXmlDoc.PackageXML.AddPackages | ros_introspection/src/ros_introspection/package_xml.py:195-217 | the children become the document PackageXmlDoc.AddedPackages describes; the tab width, once cached, is kept |
| PackageXmlDoc.ElementRemovedFrame | ros_introspection/src/ros_introspection/package_xml.py:219-227 | the element goes, with the text node before it when that node is a newline-plus-spaces indent; everything else stays in order |
| PackageXmlDoc.ElementRemovedCount | ros_introspection/src/ros_introspection/package_xml.py:219-227 | exactly the removed element's listing is lost |
| PackageXmlDoc.PackageXML.RemoveElement | ros_introspection/src/ros_introspection/package_xml.py:219-227 | the children become the ones PackageXmlDoc.ElementRemovedFrame describes |
| PackageXmlDoc.DependenciesRemovedCount | ros_introspection/src/ros_introspection/package_xml.py:229-235 | no element with the tag lists a removed package any more, and every other listing is kept |
| PackageXmlDoc.PackageXML.RemoveDependencies | ros_introspection/src/ros_introspection/package_xml.py:229-235 | the loop removes each matching element as PackageXmlDoc.PackageXML.RemoveElement does |
| Manifest.KeyLeTotal | roscompile/src/roscompile/manifest.py:109-122 | any two sort keys are comparable |
| Manifest.KeyLeTrans | roscompile/src/roscompile/manifest.py:109-122 | the key order is transitive |
| Manifest.SortKeyByIndex | roscompile/src/roscompile/manifest.py:109-122 | an element of lower ORDERING index sorts strictly first |
| Manifest.SortKeyTrailing | roscompile/src/roscompile/manifest.py:109-138 | the trailing text-only chunk sorts after every element named in ORDERING |
| Manifest.SortKeyDepends | roscompile/src/roscompile/manifest.py:109-122 | among elements of one tag, depend tags sort by their text when alphabetising, and all others keep equal keys |
| Manifest.ChunksSpec | roscompile/src/roscompile/manifest.py:125-138 | the chunks concatenate to the children, each chunk's texts end with its element, and only the last chunk can be text-only |
| Manifest.GetChunks | roscompile/src/roscompile/manifest.py:125-138 | the loop builds those chunks |
| Manifest.SortChunksSorted | roscompile/src/roscompile/manifest.py:141-149 | the sorted chunks are in key order and are a permutation of the chunks |
| Manifest.SortChunksStable | roscompile/src/roscompile/manifest.py:141-149 | chunks of equal key keep their document order |
| Manifest.OrderedSpec | roscompile/src/roscompile/manifest.py:141-149 | the children are permuted: the chunks sorted by key, each once, equal keys in document order |
| Manifest.EnforceManifestOrdering | roscompile/src/roscompile/manifest.py:141-149 | the children become the ordered ones; format and tab width are kept |
| Manifest.CleanedShape | roscompile/src/roscompile/manifest.py:152-163 | no empty text node and no two adjacent text nodes remain |
| Manifest.CleanedElements | roscompile/src/roscompile/manifest.py:152-163 | the elements are kept, in order |
| Manifest.CleanedText | roscompile/src/roscompile/manifest.py:152-163 | the concatenated text of the text nodes is kept |
| Manifest.CleanupTextElements | roscompile/src/roscompile/manifest.py:152-163 | the loop produces the cleaned children |
| Manifest.EmptyLinesRemovedSpec | roscompile/src/roscompile/manifest.py:204-210 | no node's text holds three newlines in a row; node kinds and tags are kept, and a node changes exactly when it held them |
| Manifest.RemoveEmptyLinesHelper | roscompile/src/roscompile/manifest.py:204-210 | the children become those of Manifest.EmptyLinesRemovedSpec |
| Manifest.LicenseIndex | roscompile/src/roscompile/manifest.py:227-234 | the first license element, or none when there is none |
| Manifest.LicenseUpdatedSpec | roscompile/src/roscompile/manifest.py:227-234 | the document changes only when a default license is configured and the license is exactly TODO, and then only that license's text, to the default |
| Manifest.UpdateLicense | roscompile/src/roscompile/manifest.py:227-234 | the method applies that update, or reports the error of a missing license element and leaves the children alone |
| Manifest.CommonSpec | roscompile/src/roscompile/manifest.py:54-60 | a package is common exactly when every source tag lists it |
| Manifest.RemovedAllCount | roscompile/src/roscompile/manifest.py:61-62 | the common packages are no longer listed under any source tag; every other listing is kept |
| Manifest.CommonPackages | roscompile/src/roscompile/manifest.py:54-60 | the first loop computes the packages listed under every source tag, as Manifest.CommonSpec characterises them |
| Manifest.RemoveEach | roscompile/src/roscompile/manifest.py:61-62 | the second loop leaves the children Manifest.RemovedAllCount describes, keeping the format and the cached tab |
| Manifest.ReplacedCount | roscompile/src/roscompile/manifest.py:49-63 | a package listed under every source tag leaves those tags and is listed once more under the new tag; every other listing is kept |
| Manifest.ReplacePackageSet | roscompile/src/roscompile/manifest.py:49-63 | the TypeError of sorting None exactly when no source tag is given, with the children untouched; otherwise the children become the replaced ones |
| Manifest.GreedyDependTag | roscompile/src/roscompile/manifest.py:66-70 | nothing changes in format 1; otherwise packages under all of build, build_export and exec depend move to depend |
| Manifest.GreedyDependMoves | roscompile/src/roscompile/manifest.py:66-70 | such a package ends listed once more under depend and no longer under the three tags |
| Manifest.FixTextSpec | roscompile/src/roscompile/manifest.py:78-89 | the text keeps its content before the trailing spaces, gains a newline when it had none, ends in exactly the ideal number of spaces, and is unchanged when already so |
| Manifest.FixTextData | roscompile/src/roscompile/manifest.py:78-89 | the method fixes one text node's data as Manifest.FixTextSpec describes |
| Manifest.FixChildTexts | roscompile/src/roscompile/manifest.py:77-92 | every text child but the last is fixed, and an indent is noted before each element that opens the list or follows an element |
| Manifest.InsertIndents | roscompile/src/roscompile/manifest.py:94-96 | the fixed children with an indent inserted before each noted element |
| Manifest.TabbedSpec | roscompile/src/roscompile/manifest.py:73-101 | the elements are kept in order, each one preceded by a text node; every text but the last is a newline followed by exactly std_tab times tabs spaces; a list ending in an element gets a closing indent one level shallower |
| Manifest.TabbedIdempotent | roscompile/src/roscompile/manifest.py:73-101 | tabbing an already tabbed list changes nothing |
| Manifest.EnforceTabbing | roscompile/src/roscompile/manifest.py:73-101 | the children become the tabbed ones, with std_tab computed and cached when it was not yet |
| SetupPy.ToLines | ros_introspection/src/ros_introspection/setup_py.py:94-128 | at least one line, and a non-collection is printed as its own text |
| SetupPy.OneLine | ros_introspection/src/ros_introspection/setup_py.py:110-117 | a collection gives one line exactly when its items fit on one newline-free line shorter than 100 columns with the prefix, and that line is the items between the brackets |
| SetupPy.ManyLines | ros_introspection/src/ros_introspection/setup_py.py:119-128 | otherwise the first line is the opening bracket, the last the closing one, and every line between starts with four spaces, its inner newlines re-indented too |
| SetupPy.MultiLineCommas | ros_introspection/src/ros_introspection/setup_py.py:62-91 | in multi-line form there is one line per item and each ends with a comma, dictionaries included once corrected |
| SetupPy.DictMissingComma | ros_introspection/src/ros_introspection/setup_py.py:62-89 | as written a long two-entry dictionary prints its entries without commas; corrected each line ends with one |
| SetupPy.QuoteString | ros_introspection/src/ros_introspection/setup_py.py:131-133 | the string between two quote characters |
| SetupPy.QuotedInSpec | ros_introspection/src/ros_introspection/setup_py.py:136-141 | found exactly when the string double- or single-quoted is in the container, double quotes first, and what is found unquotes to the string |
| SetupPy.ContainsQuotedString | ros_introspection/src/ros_introspection/setup_py.py:136-141 | the loop returns that quoted form |
| SetupPy.ImportLineOrder | ros_introspection/src/ros_introspection/setup_py.py:245-248 | a list of imported names prints the same whatever its order |
| SetupPy.RenderFrame | ros_introspection/src/ros_introspection/setup_py.py:239-272 | the text starts with the hash bang exactly when it is set, and ends with `)` and `setup(**variable)` when a helper function is used, with `)` alone otherwise |
| SetupPy.ArgBlockShape | ros_introspection/src/ros_introspection/setup_py.py:263-269 | each argument block starts with four spaces, the key and `=`, and ends with `,` and a newline |
| SetupPy.SetupPyFile.constructor | ros_introspection/src/ros_introspection/setup_py.py:164-179 | a new file: changed, with a hash bang, the distutils and catkin_pkg imports, the package_info helper, packages set to the quoted package name and package_dir mapping '' to 'src' |
| SetupPy.SetupPyFile.Repr | ros_introspection/src/ros_introspection/setup_py.py:239-272 | the method prints the text SetupPy.RenderFrame describes |
| SetupPy.ArgsText | ros_introspection/src/ros_introspection/setup_py.py:263-269 | the loop prints the argument blocks in order, or the first error |
| SetupPy.ArgText | ros_introspection/src/ros_introspection/setup_py.py:264-269 | one argument block: the key, the value's lines joined by a newline and four spaces, then `,` |
| SetupPy.JoinedLines | ros_introspection/src/ros_introspection/setup_py.py:266-268 | the inner loop joins the lines after the prefix with a newline and four spaces |
| PluginXml.LibraryForSpec | ros_introspection/src/ros_introspection/plugin_xml.py:42-49 | INSERT_NAME_OF_LIBRARY with no library, the first library when none is named, and a named library prefixed with lib/lib unless it already holds it |
| PluginXml.InsertedHas | ros_introspection/src/ros_introspection/plugin_xml.py:51-58 | afterwards the library holds the class, and a class added new holds the given entry |
| PluginXml.InsertedExtends | ros_introspection/src/ros_introspection/plugin_xml.py:51-58 | every library keeps its path and its classes in order, and gains at most one class; at most one library is added |
| PluginXml.InsertedValid | ros_introspection/src/ros_introspection/plugin_xml.py:51-58 | library paths and class names stay distinct |
| PluginXml.InsertedTwice | ros_introspection/src/ros_introspection/plugin_xml.py:51-58 | inserting the same class twice is the same as once |
| PluginXml.InsertIfNeededTwice | ros_introspection/src/ros_introspection/plugin_xml.py:41-58 | insert_if_needed is idempotent and never overwrites an existing entry |
| PluginXml.PluginXML.InsertIfNeeded | ros_introspection/src/ros_introspection/plugin_xml.py:41-58 | the libraries become the inserted ones and stay valid |
| PluginXml.RenderWrapped | ros_introspection/src/ros_introspection/plugin_xml.py:64-80 | the text opens with class_libraries exactly when there is more than one library or the file had the tag, then it also closes with it; no library and no tag print nothing; the older copy in src/roscompile/plugin_xml.py (lines 37-53) is identical |
| PluginXml.LibraryStart | ros_introspection/src/ros_introspection/plugin_xml.py:72-76 | an unwrapped library does not start with class_libraries |
| PluginXml.PluginXML.Repr | ros_introspection/src/ros_introspection/plugin_xml.py:64-80 | the method prints the libraries, and their classes, in insertion order, indented two spaces per level |
| PluginXml.LibrariesText | src/roscompile/plugin_xml.py:45-50 | the loop prints each library in order |
| PluginXml.LibraryText | src/roscompile/plugin_xml.py:46-49 | one library line, its classes two spaces further in, and the closing line |
| PluginXml.AttrSpec | ros_introspection/src/ros_introspection/plugin_xml.py:84-86 | an attribute is printed exactly when the class has it non-empty |
| PluginXml.AttrsSpec | src/roscompile/plugin_xml.py:57-59 | the attributes come name first, type in between and base_class_type last, and are empty only when all three are |
| PluginXml.ClassStrLines | ros_introspection/src/ros_introspection/plugin_xml.py:82-91 | a class prints as three lines: the class tag with its attributes, the description two spaces further in, and the closing tag |
| RvizConfig.ClassDictsPreorder | ros_introspection/src/ros_introspection/rviz_config.py:13-23 | the dicts with a Class entry, each before its descendants, in the order of a pre-order walk |
| RvizConfig.ClassDictsAreClasses | ros_introspection/src/ros_introspection/rviz_config.py:19-20 | every dict returned has a Class entry |
| RvizConfig.RVizConfig.GetDependencies | ros_introspection/src/ros_introspection/rviz_config.py:53-58 | the loop collects the packages of the class dicts |
| RvizConfig.PackagesOk | ros_introspection/src/ros_introspection/rviz_config.py:55-57 | the packages are read without error exactly when every Class value is a string |
| RvizConfig.PackagesSpec | ros_introspection/src/ros_introspection/rviz_config.py:53-58 | a package is returned exactly when some class dict's Class value gives it |
| RvizConfig.ClassPackageNoSlash | ros_introspection/src/ros_introspection/rviz_config.py:56 | a package is the text before the first `/`, so it holds none |
| RvizConfig.DictionarySubtract | ros_introspection/src/ros_introspection/rviz_config.py:26-40 | the loop gives the subtracted dictionary and the changed flag, comparing plain values with Python's `==` |
| RvizConfig.SubtractChanged | ros_introspection/src/ros_introspection/rviz_config.py:26-40 | changed means something was deleted, so the dictionary shrank; unchanged means it is untouched |
| RvizConfig.SubtractKeys | ros_introspection/src/ros_introspection/rviz_config.py:26-40 | keys absent from beta are untouched; a shared key is deleted when the values are equal under Python's `==` (RvizConfig.PyEq), recursed into when alpha's value is a dict and deleted when that empties it, and kept otherwise |
| RvizConfig.SubtractKeyLookup | ros_introspection/src/ros_introspection/rviz_config.py:29-39 | one key's pass changes that key only, and fails exactly when the recursion does |
| RvizConfig.PyEqReflexive | ros_introspection/src/ros_introspection/rviz_config.py:37 | every loaded value (distinct keys in each mapping) is equal to itself under Python's `==` |
| RvizConfig.PyEqReordered | ros_introspection/src/ros_introspection/rviz_config.py:37 | a mapping equals the same entries in any other order, as Python compares dicts by key |
| RvizConfig.SingleSettingSubtract | ros_introspection/src/ros_introspection/rviz_config.py:29-40 | a plain setting is deleted, and the change reported, exactly when beta's value for its key is equal to it under Python's `==` |
| RvizConfig.ReorderedNestedDeleted | ros_introspection/src/ros_introspection/rviz_config.py:37 | a list holding a mapping is deleted when beta repeats it with the mapping's entries in another order |
| RvizConfig.NumbersDeleted | ros_introspection/src/ros_introspection/rviz_config.py:37 | the integer 1 is deleted against `true`, and the float 1.0 against the integer 1 |
| RvizConfig.TextAgainstNumberKept | ros_introspection/src/ros_introspection/rviz_config.py:37 | the string "1" is kept against the integer 1 |
| RosGenerator.NameParts | ros_introspection/src/ros_introspection/ros_generator.py:10-13 | the name is the base name plus the extension, and none of the three parts holds a `/` |
| RosGenerator.ExtensionSplit | ros_introspection/src/ros_introspection/ros_generator.py:10-12 | with an extension, it starts with the dot that the type drops |
| RosGenerator.CommentIgnored | ros_introspection/src/ros_introspection/ros_generator.py:19-20 | text from `#` onwards does not matter |
| RosGenerator.SkippedLines | ros_introspection/src/ros_introspection/ros_generator.py:4-23 | blank lines and lines of three or more dashes add nothing |
| RosGenerator.ConstantCut | ros_introspection/src/ros_introspection/ros_generator.py:24-26 | a constant `type name = value` reads its type from the text before `=` |
| RosGenerator.QualifiedField | ros_introspection/src/ros_introspection/ros_generator.py:27-31 | a field of type pkg/Type depends on pkg unless pkg equals the file name, which never happens when the name has a dot and pkg has none |
| RosGenerator.UnqualifiedField | ros_introspection/src/ros_introspection/ros_generator.py:27-28 | a field type without `/` adds nothing |
| RosGenerator.ReadFieldType | ros_introspection/src/ros_introspection/ros_generator.py:19-26 | the comment is cut, a blank line or a rule of dashes gives nothing, a constant is cut at `=`, and the type word is read, or ValueError when the line is not two words |
| RosGenerator.ReadLine | ros_introspection/src/ros_introspection/ros_generator.py:19-31 | the loop body gives each line's dependency, or the error when the line is not two words |
| RosGenerator.CollectSpec | ros_introspection/src/ros_introspection/ros_generator.py:17-31 | the loop fails exactly when a line fails, and otherwise collects exactly the lines' dependencies |
| RosGenerator.GeneratedSpec | ros_introspection/src/ros_introspection/ros_generator.py:8-34 | the dependencies are the lines' packages, plus actionlib_msgs for an action file; reading fails exactly when a line fails |
| RosGenerator.NewGenerator | ros_introspection/src/ros_introspection/ros_generator.py:8-34 | the constructor's loop builds that generator |
| LegacyUtil.RemoveBlankLines | src/roscompile/util.py:27-30 | the loop returns the text of LegacyUtil.BlankLinesRemovedSpec |
| LegacyUtil.BlankLinesRemovedSpec | src/roscompile/util.py:27-30 | no three newlines in a row remain, the text is unchanged exactly when it had none, it only shrinks, and it keeps its non-newline characters in order |
| LegacyUtil.BlankLinesRemovedIdempotent | src/roscompile/util.py:27-30 | removing blank lines twice is the same as once |
| LegacyUtil.ReplaceKeepsText | src/roscompile/util.py:28-29 | one replacement keeps the non-newline characters |
| LegacyUtil.Filled | src/roscompile/util.py:22-24 | one filled pattern per pattern, in order |
| LegacyUtil.RemoveEach | src/roscompile/util.py:18-19 | the loop removes each ignored line in turn |
| LegacyUtil.CleanContents | src/roscompile/util.py:17-25 | the method returns the text of LegacyUtil.CleanedSpec |
| LegacyUtil.RemovedEachAppend | src/roscompile/util.py:17-25 | removing two lists in turn is removing their concatenation |
| LegacyUtil.RemovedEachSpec | src/roscompile/util.py:18-19 | the text only shrinks, and is unchanged when it holds none of the lines |
| LegacyUtil.CleanedSpec | src/roscompile/util.py:17-25 | the ignored lines are removed, then the filled patterns only when variables are given; the text only shrinks and is unchanged when it holds none of them |
| LegacyUtil.RemovalOrderMatters | src/roscompile/util.py:18-19 | removing one line can join the parts of another, so the order of the list matters |
| LegacyCMake.LegacyCMakeFile.constructor | src/roscompile/cmake.py:2-41 | the contents are what the scanner reads from the text |
| LegacyCMake.LegacyCMakeFile.Output | src/roscompile/cmake.py:44-51 | the output is the contents printed back |
| LegacyCMake.RoundTrip | src/roscompile/cmake.py:2-51 | the output is the input when the text does not end inside a command's parentheses; otherwise the `(` and the parameters read so far are lost |
| LegacyCMake.RunSpells | src/roscompile/cmake.py:10-31 | what the scanner has produced plus what it holds pending is the text read so far |
| LegacyCMake.StepSpells | src/roscompile/cmake.py:12-31 | one character moves from the input to the printed or pending text and nothing is lost |
| LegacyCMake.RunOk | src/roscompile/cmake.py:12-31 | a command name starts with a character that is neither whitespace nor `#` and holds no `(` after it; parameters never hold `)`; a comment stays in a text item up to its newline |
| LegacyCMake.ParsedItems | src/roscompile/cmake.py:27-41 | every command read has such a name and parameters, and so has every item but the last |
| LegacyPackageXml.LegacyPackageXML.GetPackages | src/roscompile/package_xml.py:12-21 | the texts of the build or run dependencies, in order |
| LegacyPackageXml.TextsCount | src/roscompile/package_xml.py:12-21 | each package as often as it is listed |
| LegacyPackageXml.LegacyPackageXML.InsertNewElements | src/roscompile/package_xml.py:23-34 | the children with the new nodes spliced in at Python's `[:i-1]` cut |
| LegacyPackageXml.InsertedAtSpec | src/roscompile/package_xml.py:23-34 | the children around the cut are kept in order, and each package that is not ignored is listed once more per request |
| LegacyPackageXml.NewNodesCount | src/roscompile/package_xml.py:3-32 | roslib is never inserted; every other value gets one element |
| LegacyPackageXml.LegacyPackageXML.RemoveListed | src/roscompile/package_xml.py:37-39 | the request without the packages already listed |
| LegacyPackageXml.PrunedCount | src/roscompile/package_xml.py:37-39 | each listed package removes one copy of itself from the request |
| LegacyPackageXml.PrunedSet | src/roscompile/package_xml.py:37-39 | a package stays requested exactly when it was requested more often than it is listed |
| LegacyPackageXml.LegacyPackageXML.AddPackages | src/roscompile/package_xml.py:36-69 | the remaining request, and the children with it inserted by the corrected state machine |
| LegacyPackageXml.LegacyPackageXML.ScanStep | src/roscompile/package_xml.py:43-63 | one pass of the loop moves the cursor forward and leaves the outcome of the rest of the corrected scan unchanged |
| LegacyPackageXml.BuildPlacement | src/roscompile/package_xml.py:41-65 | build packages go just before the node before the first run_depend, before the last child when there is no dependency, and nowhere when there are build_depends but no run_depend |
| LegacyPackageXml.RunPlacement | src/roscompile/package_xml.py:41-69 | run packages go before the first element after the first run_depend that is not a dependency, before the last child when the dependencies run to the end or there is none, and nowhere when there are build_depends but no run_depend |
| LegacyPackageXml.RunPlacementAfterRun | src/roscompile/package_xml.py:52-69 | with a run_depend: before the first later element that is not a dependency |
| LegacyPackageXml.RunPlacementNoRun | src/roscompile/package_xml.py:41-67 | without a run_depend: before the last child when there is no build_depend either, else nowhere |
| LegacyPackageXml.AddedOnce | src/roscompile/package_xml.py:36-69 | corrected, each remaining package is listed once more per request, or the document is left alone |
| LegacyPackageXml.InterleavedTwice | src/roscompile/package_xml.py:50-56 | as written, interleaved build and run depends get one requested build package inserted twice; corrected, once |
| Manifest.CloseIndent | roscompile/src/roscompile/manifest.py:97-101 | a list ending in an element gets an indent one level shallower appended, and nothing else changes |

## Left out

- Documents are values, not objects. `CMake`, `Command`, `Section` and `CommandGroup` are datatypes with explicit identities. An edit through a reference becomes a replacement of the item with that identity, and aliasing beyond `content_map` is not modelled. A class per object would need a dynamic frame over a tree of mutable objects, which the verifier does not handle at this size.
- `parse_file`, `CMake.write` and `file_path`: file I/O.
- The debug printing in `AwesomeParser.__init__`, `get_ordering_index` and `remove_command`, and the token dump on standard error in `match`: output only.
- Python 2 dictionary and set iteration order. Rules are maps and sources are sets. The `val_sep` a section takes from several delimiters is any one of them (`list(delims)[0]`).
- The state a Python exception leaves behind: a failing call returns `Err` and the partial result is dropped.
- `re.Scanner` is modelled by its rules directly, not by a general regular-expression engine.
- Identities are parameters: the parser numbers commands from a given first id, and `section_check` and `get_test_section` take the ids of the objects they create.
- Groups get the identity of their opening command.
- `CMakeParser.AwesomeParser.ParseSection` and `CMakeParser.AwesomeParser.ParseCommand` split their loops into helper methods (`SkipRun`, `ValueLoop`, `CommandBody`). Each helper pops tokens exactly as the loop it stands for.
- `RoscompileCMake.SweptCommandClean`: a changed command is guaranteed free of the last ignorable only. Removing a later ignorable can bring an earlier one together again (`RoscompileCMake.SweepCanRejoin`), so the source promises no more.
- `RoscompileCMake.SweptDocClean`: the same limit, for the whole document.
- `RoscompileCMake.RemoveCMakeCommandCommentsHelper` and `RoscompileCMake.RemoveCMakeCommentsHelper` require non-empty ignorables and a replacement shorter than each. With any other replacement the `while ignorable in ...` loop of the source need not end.
- `RoscompileCMake.EmptyLinesRemovedExactly` and `RoscompileCMake.EmptyLinesCollapsed` are stated for contents without empty string items. An empty string between two blank lines hides them from the test at `roscompile/src/roscompile/cmake.py:372`, and `remove_empty_strings` then puts them next to each other.
- The package-level wrappers decorated with `@roscompile` (`check_cmake_dependencies`, `alphabetize_sections`, `remove_boilerplate_cmake_comments`, `enforce_cmake_ordering` and the rest) read the package and its configuration. The model starts from the helpers they call, and the dependencies and ignorables are parameters.
- The roscompile and ROS 2 callers use members that the `ros_introspection/cmake.py` shown here does not define. The model adds each one as a minimal extension. Its contract is taken only from its call sites:
  - `Installs.NewSectionStyle`: `SectionStyle(NEWLINE_PLUS_8)` (`roscompile/src/roscompile/installs.py:99`). The shown `SectionStyle.__init__` (`cmake.py:48`) takes no argument. The model assumes the argument sets `prename` and the other fields keep their defaults.
  - `CMakeDoc.AddSection`: it takes a third `style` argument. The shown `add_section` (`cmake.py:102`) takes two and always uses the shared default. The model assumes the style passed is the new section's own.
  - `RoscompileCMake.Needed`: it calls `resolve_variables` on the list `section.values` (`roscompile/src/roscompile/cmake.py:32`). The shown method (`cmake.py:175-179`) calls `replace` on a string, so on a list it would raise AttributeError. The model assumes it resolves each value, as `CMakeQuery.ResolveAll` does.
  - `RoscompileCMake.WithNeeded`: `Section.add_values` (`roscompile/src/roscompile/cmake.py:35`). The shown `Section` (`cmake.py:57-76`) has only `add`. The model assumes it appends the values. They come from a Python set, whose order is unspecified, so the model appends them sorted.
  - `CMakeEdit.Arrange`: the `alpha_order` argument of `section_check` (`roscompile/src/roscompile/cmake.py:222`, `226`). The shown `section_check` always sorts the missing items. The model assumes `alpha_order=False` appends them in the order given.
  - `Ros2CMake.RemoveAllCommands`: `remove_all_commands` (`magical_ros2_conversion_tool/src/magical_ros2_conversion_tool/cmake.py:152`). The model assumes it calls `remove_command` on each command of that name.
- `enforce_ordering` (called at `roscompile/src/roscompile/cmake.py:384`) is not defined in the shown `cmake.py`, and its call site fixes no contract beyond its argument. It is not part of this model. The ordering key it would sort by is modelled (`CMakeFile.SortKeyOf`, used by `get_insertion_index`).
- `print` calls in `install_section_check`: output only.
- `fnmatch` in `matches_patterns` is a parameter (a predicate on an item and a pattern).
- Dictionary iteration order in `installs.py` (`INSTALL_CONFIGS`, `destination_map.items()`) is a parameter: any order of the keys.
- `update_cmake` (magical `cmake.py:140-155`) is a driver that calls the passes in turn. `upgrade_minimum_version` (line 141) is not defined in any of the source files, so nothing is modelled for it; the model gives the ROS 2 passes as separate members.
- `update_tests`, `catkin_to_ament_package` and the other package-level steps of the ROS 2 conversion touch `package.xml` and the test section. They are not part of this model.
- `get_clean_build_dependencies` returns the build dependencies in Python set order. The model takes the dependency list as a parameter and maps it through `REPLACE_PACKAGES`.
- `rename_commands` is modelled without `remove_sections`: none of its calls (magical `cmake.py:121`, `135`, `137`) passes any.
- Identities of commands created by `split_find_package_commands` and `install_section_check` are parameters (`next`, `freshId`).
- `package.xml` documents are lists of root children, `Text(data)` or `Element(name, text)`, not minidom trees. An element holds its text and no child elements. `getElementsByTagName` searches every descendant, while the model looks at the root's children only. Comments, attributes other than the format and the XML header are not modelled.
- The file parsing in `PackageXML.__init__`, `write`, `get_elements_by_tags`, `get_people`, `update_people`, `is_metapackage`, `get_plugin_xmls` and `add_plugin_export` are not part of this model. `get_license` and `set_license` appear only inside `update_license`. The constructor takes the children and the format attribute as parameters.
- `get_packages_by_tag` reads `el.childNodes[0]`, which fails on an empty element. Elements here always hold their text, so the model has no such failure.
- `PackageXmlDoc.MostFrequentWidth`: `std_tab` takes the first most frequent width in Python 2 dictionary order. The model returns some most frequent width, because that order is unspecified.
- `PackageXmlDoc.PackageXML.AddPackages`: in format 1 the source adds the build packages to the caller's run set in place (`run_depends.update(build_depends)`). The model takes the sets as values, so the caller does not see that change.
- `PackageXmlDoc.ClosestEarlierTag` and `PackageXmlDoc.PackageXML.GetInsertionIndex` model the corrected search. The as-written test on line 165 depends on dictionary order (see Findings).
- `enforce_tabbing_helper` and `remove_empty_lines_helper` recurse into child elements. Elements here hold only their text, so the model covers the root level, and the element texts for blank lines.
- The package-level `@roscompile` wrappers in `manifest.py`, `check_manifest_dependencies`, `remove_empty_export_tag`, `update_people`, `replace_text_node_contents` and `remove_boilerplate_manifest_comments` are not part of this model. `update_license` takes the configured default license as a parameter instead of reading the configuration.
- `setup_py.py`'s reader (`ast` parsing, lines 7-39 and 181-231) and `SetupPy.write` are left out. Python values are the `PyVal` datatype: atoms print as their source text, and dictionaries keep their entries in order.
- `SetupPy.ToLines` and the members built on it model `python_collection_to_lines` with the dictionary commas corrected. The as-written form is kept as `AsWritten` (see Findings).
- `PluginXML` reading from a file, `write`, and Python 2 `keys()[0]` order are left out. The first library is the first one inserted, which is `OrderedDict` order.
- `rviz_config.py`'s YAML loading and writing and the `changed` flag's use by callers are left out. YAML values are the `Yaml` datatype, with mappings as ordered entry lists compared by key.
- `RvizConfig.Yaml`: it holds strings, integers, finite floats (as reals), booleans, null, lists and string-keyed mappings. YAML's other types (timestamps, binary, sets, non-string keys), NaN and the infinities, and Python 2's str/unicode distinction are not represented.
- `RvizConfig.DictionarySubtract`: `dictionary_subtract` deletes from `alpha` in place. The model returns the new mapping and the flag, so aliasing of nested dictionaries is not captured.
- `ROSGenerator` takes the file's lines as a parameter instead of opening the file. `__repr__` returns the name and is not modelled separately.
- `RosGenerator.QualifiedField`: the source compares the package with the file name, extension included. The model keeps that test as written, so it almost never excludes anything.
- `src/roscompile/util.py`: `get_ignore_data` reads its files through `resource_retriever`. The model takes the ignored lines, the patterns and the variables as parameters, and `pattern % variables` as a function parameter `fill`.
- `src/roscompile/cmake.py`: reading and writing files, and the debug `print`, are left out. `LegacyCMake.LegacyCMakeFile.Output` returns the text instead of writing it.
- `LegacyCMake.RoundTrip`: text that ends inside a command's parentheses loses the `(` and the parameters read so far, as the source does.
- `src/roscompile/package_xml.py`: `output`, the XML header and the `print` of each insertion are left out. `LegacyPackageXml.LegacyPackageXML.AddPackages` returns the pruned request instead of changing the caller's list in place.
- `LegacyPackageXml.LegacyPackageXML.AddPackages` models the corrected state machine; the as-written one is kept as `AsWritten` (see Findings). As written and corrected, a document with build_depends but no run_depend gets nothing inserted, and the model keeps that.

## Findings

| source | as written | input that shows it | evidently intended | confidence | as-written member | corrected member |
|---|---|---|---|---|---|---|
| roscompile/src/roscompile/installs.py:105-110 | `destination` is reassigned inside the loop over section names, so each further name of the same destination gets the subfolder joined again | the library destination of `INSTALL_CONFIGS` with two section names and subfolder `x`: the second name gets `.../x/x` | every section name of a destination gets the destination joined once with the subfolder | high, not executed | Installs.InstallSectionsDoubleJoin | Installs.CheckAllSpec |
| roscompile/src/roscompile/installs.py:177 | the section's values are pruned but `cmd.changed` is left alone, so an unchanged command still prints its original text with the stale targets | `install(TARGETS a b RUNTIME DESTINATION ${CATKIN_PACKAGE_BIN_DESTINATION})` read from a file, with only `a` to be installed: the TARGETS values become `[a]` but the printed text still lists `a b` | the pruned command is marked changed and printed from its sections | medium, not executed | InstallCheck.PrunedAsWrittenLost | InstallCheck.PrunedRendered |
| ros_introspection/src/ros_introspection/package_xml.py:165 | the third disjunct `indexes[tag][-1] > indexes[best_tag][-1]` lets a tag of lower rank replace the best one whenever its last run comes later, so the answer depends on the dictionary's iteration order | children `[text, <version> at 1, text, <name> at 3, text]` and a new `<description>`: visiting the version first the loop settles on the name and returns 3; visiting the name first it settles on the version and returns 1 | the tag of highest rank below the new tag's wins, the latest run breaking ties between equal ranks only, so the description goes after the version (index 1) whatever the order | high, not executed | PackageXmlDoc.AsWrittenDependsOnOrder | PackageXmlDoc.UnorderedInsertion |
| magical_ros2_conversion_tool/src/magical_ros2_conversion_tool/cmake.py:24-35 | the loop walks `content_map['find_package']` while `remove_command` removes from that same list, so the command after a removed one is skipped | two `find_package(catkin)` commands in a row: the second one survives | every `find_package(catkin ...)` command is removed and its components collected | high, not executed | Ros2CMake.SecondCatkinFindKept | Ros2CMake.BothCatkinFindsRemoved |
| src/roscompile/package_xml.py:50-56 | a build_depend seen after a run_depend sets the state back to 1, so the next run_depend inserts the build request again | children `build a, run a, build b, run b` (each after a text node) and the request `["c"]`: `c` is inserted as a build_depend twice | the state only moves forward, so the request goes in once, before the first run_depend | high, not executed | LegacyPackageXml.InterleavedTwice | LegacyPackageXml.AddedOnce |
| ros_introspection/src/ros_introspection/setup_py.py:62-89 | in multi-line form the list and tuple items get a `,` but dictionary entries do not, and the lines are joined with newlines only | `{'a': x, 'b': y}` with `x` at least 100 characters: it prints as `{`, `    'a': x`, `    'b': y`, `}`, which is not valid Python | every entry line of a multi-line dictionary ends with `,`, as for lists | high, not executed | SetupPy.DictMissingComma | SetupPy.MultiLineCommas |
