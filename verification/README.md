# Better Block Editor: a Dafny model

This project models the core of the Better Block Editor WordPress plugin and proves properties of that model. The plugin adds responsive settings and hover colours to core blocks, and it curates the theme's design system. It also imports a demo site and can roll the import back.

The model covers six areas:

- **Demo-content import.** This covers the ordered list of import steps (`ImportContentActionBuilder`). It also covers the batch arithmetic and time limit of `ContentImporter`, with its post, attachment and menu-item processing. The `Demo` record with its status and magic accessors is modelled, as are the font-face bookkeeping of `FontDownloader` and the retry state machine and URL helpers of the import page script.
- **Import bookkeeping and rollback.** `ContentTracker`/`TrackerBase` keep one history bucket per demo. `WPSettingsImporter` captures the originals of the settings it overwrites. `Remover` and `RemoveContentAjaxHandler` delete tagged content and write the originals back. Round-trip lemmas connect the import and the rollback.
- **Settings.** This covers the sanitisers for user-defined breakpoints, module switches and module settings, the option names, the defaults and the switch-width lookup (`CssMediaBreakpoints`). It also covers the module registry (`ModulesManager`) and the feature flags (`plugin.php`).
- **Attribute-to-CSS transforms.** This covers colour and gradient attributes (`ColorUtils`), CSS variables and attribute normalisation (`BlockUtils`), and the preset-reference rewriting and rule filtering of `StyleEngine`. It also covers the render guard shared by the responsive modules and each responsive module's declarations.
- **Design system.** This covers the parts flag of `DesignSystemCore` and the whitelist and remapping of `DesignSystemParts`.
- **SVG uploads.** This covers the extension-to-MIME fix, gzip detection, `str_ends_with`, the upload decision, the image-tag override and the two filters of `UploadSVG`.

The host CMS is represented by plain data. Options, theme mods, posts, terms and their meta are maps in a `Site` record (module `Site`). Host predicates and lookups are parameters. PHP values are one datatype, `Php.Value`. PHP arrays are insertion-ordered association lists (`OrderedMap`), so "the last key" and "in order" keep their PHP meaning. Truthiness, loose comparison, `(int)`/`(string)` casts and `strlen` on UTF-8 follow PHP 8.

Where a line of the source evidently does not do what its authors meant, the model keeps both readings: a member that follows the code as written, and the intended one, which the rest of the model uses. Each pair is listed under "Findings".

## Model

| member | source | states |
|---|---|---|
| ActionBuilder.SetupData | better-block-editor/Modules/DemoContent/ActionBuilders/ImportContentActionBuilder.php:41-83 | the step list has 9 to 11 steps, in strict step order with none repeated; the theme install is first exactly when another template is active; the package download follows, then the rewrite-rules step exactly when permalinks are plain; the fixed eight-step tail ends the list; the user list holds the external user exactly when one is set; the demo id is passed on |
| ActionBuilder.Steps | better-block-editor/Modules/DemoContent/ActionBuilders/ImportContentActionBuilder.php:42-63 | the list of steps is in step order, names no step twice and ends with the fixed tail |
| ActionBuilder.StepsHead | better-block-editor/Modules/DemoContent/ActionBuilders/ImportContentActionBuilder.php:44-52 | the optional theme step is present (and first) iff the active template is not the plugin's theme, and the rewrite step is present (right after the download) iff the permalink option is falsy |
| ActionBuilder.OrderedDistinct | better-block-editor/Modules/DemoContent/ActionBuilders/ImportContentActionBuilder.php:42-63 | a list of steps in step order never runs a step twice |
| ActionBuilder.StartingText | better-block-editor/Modules/DemoContent/ActionBuilders/ImportContentActionBuilder.php:22-34 | without a demo no starting text is set; with one the text is `Importing <title> template...` |
| ActionBuilder.NameInjective | better-block-editor/Modules/DemoContent/ActionBuilders/ImportContentActionBuilder.php:45-61 | the names sent to the page identify the steps: two steps with the same name are the same step |
| BlockUtils.FirstUnique | better-block-editor/Core/BlockUtils.php:28-35 | the index found holds an accepted class (prefix `wpbbe-`, a digit after it) and no earlier class is accepted; none is found only when no class is accepted |
| BlockUtils.GetUniqueClassId | better-block-editor/Core/BlockUtils.php:20-39 | the id returned is always an accepted class; when the tag carries one it is reused and the id counter is untouched; otherwise the counter advances by one and the id is `wpbbe-` followed by the new count |
| BlockUtils.UniqueClassIsFirst | better-block-editor/Core/BlockUtils.php:29-34 | the class reused is the first accepted class on the tag, not any later one |
| BlockUtils.AlignmentSpec | better-block-editor/Core/BlockUtils.php:200-221 | an alignment exists exactly for `left`, `right`, `center`, `stretch` and `space-between`; the reversed map is the plain map applied to the word with `left` and `right` exchanged, and agrees with it on every other word |
| BlockUtils.VariableOf | better-block-editor/Core/BlockUtils.php:258-269 | a setting that applies assigns the attribute stored under its key, which is never null |
| BlockUtils.Variables | better-block-editor/Core/BlockUtils.php:258-270 | the assignments made are exactly those of the settings that apply |
| BlockUtils.GenerateCssVariables | better-block-editor/Core/BlockUtils.php:255-272 | each variable holds the value of the last assignment to its name |
| BlockUtils.GenerateCssVariablesDefined | better-block-editor/Core/BlockUtils.php:255-272 | a variable is defined iff some applicable setting names it |
| BlockUtils.GenerateCssVariablesValues | better-block-editor/Core/BlockUtils.php:261-268 | every variable defined holds a non-null attribute of one of the settings |
| BlockUtils.AttrByPathIsPath | better-block-editor/Core/BlockUtils.php:355-367 | walking the dotted path step by step reads what a nested `??` lookup reads: a missing step and a stored null both give null |
| BlockUtils.FlatKeyDiffers | better-block-editor/Core/BlockUtils.php:333-337 | the key `"{$key}-{$border_key}"` of a flattened border entry never collides with the border's own key |
| BlockUtils.FlatWritesAvoid | better-block-editor/Core/BlockUtils.php:333-337 | the flattening loop never writes the border's own key |
| BlockUtils.FlatKeyInjective | better-block-editor/Core/BlockUtils.php:335 | distinct border keys flatten to distinct keys |
| BlockUtils.StepPlain | better-block-editor/Core/BlockUtils.php:301-325 | a setting whose value is missing changes nothing; a non-border setting stores its converted value under its key and leaves every other key and the attributes as they were |
| BlockUtils.StepBorder | better-block-editor/Core/BlockUtils.php:326-338 | with the border case kept, the attributes are the border-patched attributes and the setting's entry is the patched border |
| BlockUtils.StepBorderFlat | better-block-editor/Core/BlockUtils.php:330-337 | every non-null entry of a border with distinct keys also lands under its flat key with its patched value |
| BlockUtils.BorderKeepsValid | better-block-editor/Core/BlockUtils.php:328 | patching the border colours keeps the border's keys |
| BlockUtils.AsWrittenKeepsRaw | better-block-editor/Core/BlockUtils.php:326-342 | as written, the unconditional `$result[$key] = $value` after the switch leaves a border setting with the raw value read for it |
| BlockUtils.BorderEntryDiscrepancy | better-block-editor/Core/BlockUtils.php:326-342 | for a border holding one preset colour, as written the entry keeps the slug, while with the border case kept it holds the `var(--wp--preset--color--…)` property |
| Breakpoints.Stored | better-block-editor/Core/Settings.php:145-150 | while the option was never saved the stored breakpoints are the two defaults |
| Breakpoints.StoredAfterSave | better-block-editor/Core/Settings.php:145-150 | breakpoints read back after being saved are those saved |
| Breakpoints.Active | better-block-editor/Core/Settings.php:129-137 | the filter keeps exactly the entries whose `active` field is truthy, under their own keys and in their own order, and adds none |
| Breakpoints.InArrayLooseWords | better-block-editor/Core/Settings.php:247 | against a list of words that are neither empty nor "0", PHP's loose `in_array` holds exactly for one of the words or for `true` |
| Breakpoints.UnitCheck | better-block-editor/Core/Settings.php:247 | a unit passes the check iff it is `px`, `em`, `rem`, `vw`, `vh` or the boolean `true` |
| Breakpoints.Sanitized | better-block-editor/Core/Settings.php:240-243 | the sanitised copy has the name cast to string, the value through `floatval` (sign, fraction and exponent read), `active` true, and every other field as submitted |
| Breakpoints.RejectsIffNotAccepted | better-block-editor/Core/Settings.php:247-250 | the rejection test on the sanitised copy fails exactly the entries that are not accepted: an allowed unit, a name neither empty nor "0" of at most 20 bytes, a width in (0, 9999] |
| Breakpoints.RejectsCast | better-block-editor/Core/Settings.php:247-250 | the same test, clause by clause, on a string name and a float width |
| Breakpoints.CyrillicNameTooLong | better-block-editor/Core/Settings.php:248 | `strlen` counts bytes: a name of eleven Cyrillic letters, 22 bytes in UTF-8, is rejected |
| Breakpoints.ExponentWidthRefused | better-block-editor/Core/Settings.php:242-249 | a width submitted as `"1e5"` is read by `floatval` as 100000, above 9999, so the entry is refused |
| Breakpoints.ExponentWidthKept | better-block-editor/Core/Settings.php:242 | a width submitted as `"1e3"` is stored as the float 1000 |
| Breakpoints.Deactivated | better-block-editor/Core/Settings.php:262-263 | a removed breakpoint is kept with `active` false and every other field unchanged |
| Breakpoints.KeptOne | better-block-editor/Core/Settings.php:245-256 | one submitted entry leaves at most one entry, under its own key |
| Breakpoints.KeptKeys | better-block-editor/Core/Settings.php:239-258 | the first loop leaves only submitted keys |
| Breakpoints.Inactive | better-block-editor/Core/Settings.php:261-264 | the removed breakpoints are written back deactivated, under the same keys in the same order |
| Breakpoints.VisitAccepted | better-block-editor/Core/Settings.php:245 | an accepted entry is replaced in place by its sanitised copy |
| Breakpoints.VisitRestored | better-block-editor/Core/Settings.php:251-252 | a rejected entry with a stored breakpoint under its key is replaced in place by the stored one |
| Breakpoints.VisitDropped | better-block-editor/Core/Settings.php:253-254 | a rejected entry with nothing stored under its key is dropped |
| Breakpoints.VisitKept | better-block-editor/Core/Settings.php:239-257 | one round of the in-place loop turns the entry visited into what it leaves and touches nothing else |
| Breakpoints.FirstPassKept | better-block-editor/Core/Settings.php:239-258 | the first loop, editing the array it walks a copy of, leaves each submitted entry's outcome in submitted order |
| Breakpoints.MarkRemovedAppends | better-block-editor/Core/Settings.php:261-264 | the second loop appends every stored breakpoint that is missing from the result, deactivated |
| Breakpoints.SanitizeClosedForm | better-block-editor/Core/Settings.php:233-267 | the sanitiser returns what the submitted entries leave, followed by the stored breakpoints missing from it, deactivated |
| Breakpoints.FindKept | better-block-editor/Core/Settings.php:239-258 | after the first loop a submitted key holds its sanitised copy when accepted and otherwise what was stored under it, if anything |
| Breakpoints.SanitizeOutcome | better-block-editor/Core/Settings.php:233-267 | per key: an accepted submission is saved sanitised; a rejected one keeps the stored breakpoint or vanishes; a stored key not submitted is kept, deactivated |
| Breakpoints.NoBreakpointLost | better-block-editor/Core/Settings.php:233-267 | no stored breakpoint is lost; no key appears that was neither stored nor submitted; breakpoints left out of the submission become inactive; accepted ones are active |
| Breakpoints.SwitchWidthIn | better-block-editor/Core/CssMediaBreakpoints.php:21-33 | `custom` resolves to the width the block supplies; any other name resolves to a string or null |
| Breakpoints.StoredSwitches | better-block-editor/Core/CssMediaBreakpoints.php:28-30 | a stored breakpoint switches at its value followed by its unit |
| Breakpoints.UnknownNeverSwitches | better-block-editor/Core/CssMediaBreakpoints.php:32 | a name that is neither `custom` nor stored resolves to null |
| Breakpoints.DefaultEntryFields | better-block-editor/Core/Settings.php:335-350 | a default breakpoint carries its name and width, the unit `px` and is active |
| Breakpoints.DefaultsFound | better-block-editor/Core/Settings.php:335-350 | the defaults hold `mobile` at 480 and `tablet` at 960, and nothing under the off value `''` |
| Breakpoints.DefaultSwitches | better-block-editor/Core/CssMediaBreakpoints.php:28-30 | a default breakpoint switches at its width in pixels |
| Breakpoints.OffNeverSwitches | better-block-editor/Core/CssMediaBreakpoints.php:19 | the off value `''` never switches |
| Breakpoints.DefaultWidths | better-block-editor/Core/CssMediaBreakpoints.php:21-33 | on a site that never saved breakpoints mobile switches at `480px`, tablet at `960px`, and `''` never |
| Breakpoints.RemovedBreakpointStillResolves | better-block-editor/Core/Settings.php:261-264 | a breakpoint removed on the settings page resolves to the same width as before, because it is kept inactive |
| Breakpoints.SavedSwitchWidth | better-block-editor/Core/CssMediaBreakpoints.php:22 | after saving the sanitised breakpoints, widths resolve against what was saved |
| Breakpoints.SavedWidth | better-block-editor/Core/Settings.php:242 | an accepted breakpoint switches at its width as PHP prints the float, followed by its unit |
| Breakpoints.ExportEntry | better-block-editor/Modules/Settings/Module.php:90-97 | an exported breakpoint carries its key, its name, its value followed by its unit, and whether its `active` field is truthy |
| Breakpoints.ExportAgreesWithServer | better-block-editor/Modules/Settings/Module.php:88-100 | the editor receives the same width the server resolves for a breakpoint, and marks it active exactly when the active filter keeps it |
| Breakpoints.ExportDataAt | better-block-editor/Modules/Settings/Module.php:88-100 | one exported element per stored breakpoint, in stored order, inactive ones included |
| ButtonHoverColors.IntendedActs | better-block-editor/Modules/ButtonHoverColors/Module.php:41 | read as intended, the test acts exactly on a colour that is set and not the empty string |
| ButtonHoverColors.AsWrittenNarrower | better-block-editor/Modules/ButtonHoverColors/Module.php:41 | every colour the code as written acts on is acted on by the intended test; the colours only the intended test acts on are falsy ones |
| ButtonHoverColors.Step | better-block-editor/Modules/ButtonHoverColors/Module.php:41-47 | a colour adds its class and property exactly when it is acted on |
| ButtonHoverColors.Steps | better-block-editor/Modules/ButtonHoverColors/Module.php:40-48 | the loop adds classes and inline properties only, one of each per colour acted on at most |
| ButtonHoverColors.StepsInOrder | better-block-editor/Modules/ButtonHoverColors/Module.php:40-48 | the classes are `has-hover-text`, `-background`, `-border` in that order, each present exactly when its colour is acted on, and the `--wp-block-button--hover-*` properties follow the same order |
| ButtonHoverColors.Render | better-block-editor/Modules/ButtonHoverColors/Module.php:33-51 | any block other than a non-empty `core/button` is left as it is; a button gets the three colour steps for the settings in its `wpbbeHoverColor` attribute |
| ButtonHoverColors.FalsyColourDiscrepancy | better-block-editor/Modules/ButtonHoverColors/Module.php:41 | a text hover colour of "0" gets no class as written and gets one under the intended test |
| ButtonsResponsive.DeclarationsSpec | better-block-editor/Modules/ButtonsResponsive/Module.php:41-56 | the direction is the orientation as set; the justification lands on `justify-content` for `row` and `row-reverse` and on `align-items` otherwise, and the other property is not declared |
| ButtonsResponsive.ReverseMirrors | better-block-editor/Modules/ButtonsResponsive/Module.php:48-51 | under `row-reverse` a justification acts as its mirror image does under `row` |
| ButtonsResponsive.Render | better-block-editor/Modules/ButtonsResponsive/Module.php:33-65 | a block the responsive guard refuses is untouched; one it passes gets its unique class and one rule below the switch width on `.wp-block-buttons.id.id.id`, read with the defaults `row` and `left` |
| ColorUtils.PresetSlug | better-block-editor/Core/ColorUtils.php:31 | a slug read off a CSS value is one that the preset property of its kind spells out again |
| ColorUtils.PresetSlugOfVar | better-block-editor/Core/ColorUtils.php:31 | the slug can be read back from the preset custom property made of it |
| ColorUtils.ColorAttributeToCssSpec | better-block-editor/Core/ColorUtils.php:24-32 | a truthy colour starting with `#` is kept, and any other truthy colour becomes the preset property from which its slug reads back |
| ColorUtils.ColorAttributeToCssInjective | better-block-editor/Core/ColorUtils.php:24-32 | two colour strings never convert to the same CSS value |
| ColorUtils.GradientAttributeToCssSpec | better-block-editor/Core/ColorUtils.php:45-53 | a truthy gradient whose first 15 characters are `linear-gradient` or `radial-gradient` is kept, and any other truthy gradient becomes the preset gradient property from which its slug reads back |
| ColorUtils.GradientFunctionStart | better-block-editor/Core/ColorUtils.php:50 | a kept gradient function starts with `l` or `r`, so it is never mistaken for a preset property |
| ColorUtils.GradientAttributeToCssInjective | better-block-editor/Core/ColorUtils.php:45-53 | two gradient strings never convert to the same CSS value |
| ColorUtils.PatchSide | better-block-editor/Core/ColorUtils.php:75-81 | a side that is an array with a colour set gets that colour converted and keeps its keys and every other entry; any other side is kept as it is |
| ColorUtils.PatchSides | better-block-editor/Core/ColorUtils.php:74-82 | each of the four sides is patched once, and the border keeps its keys and every other entry |
| ColorUtils.PatchColor | better-block-editor/Core/ColorUtils.php:69-71 | the border's own colour is converted when set, and the keys and every other entry are kept |
| ColorUtils.PatchBorderColorsSpec | better-block-editor/Core/ColorUtils.php:61-83 | only the border attribute changes; a border that is not an array is left alone; otherwise it keeps its keys, its own colour is converted when set, each side is patched, and every other entry is unchanged |
| ColorUtils.PatchBorderKeepsHex | better-block-editor/Core/ColorUtils.php:61-83 | a border whose colours are all hex values or unset is left unchanged |
| ColorUtils.HexKept | better-block-editor/Core/ColorUtils.php:29-30 | a hex colour converts to itself |
| ColumnsResponsive.RenderColumn | better-block-editor/Modules/ColumnsResponsive/Module.php:43-71 | a block is changed exactly when it is a non-empty `core/column` with a width set; it then gets its unique class and one plain rule giving that width, marked `!important`, as the flex basis inside stacking columns |
| ColumnsResponsive.Configuration | better-block-editor/Modules/ColumnsResponsive/Module.php:106-123 | a set responsive group is used as it is; otherwise the configuration uses the mobile breakpoint when the block stacks and the off value when not, with no custom width and no reversal |
| ColumnsResponsive.SwitchWidth | better-block-editor/Modules/ColumnsResponsive/Module.php:131-138 | the switch width is never falsy: a breakpoint that resolves to nothing falls back to `0px` |
| ColumnsResponsive.StackDeclarationsSpec | better-block-editor/Modules/ColumnsResponsive/Module.php:159-160 | below the switch width the block runs top to bottom, bottom to top exactly when reversed, and stretches its columns |
| ColumnsResponsive.Rules | better-block-editor/Modules/ColumnsResponsive/Module.php:145-195 | three rules: a plain one, then one below and one above the switch width; the one below holds two blocks, the first being the stacking declarations |
| ColumnsResponsive.RenderColumns | better-block-editor/Modules/ColumnsResponsive/Module.php:79-98 | a block is changed exactly when it is a non-empty `core/columns`; it gets its unique class, then either `is-not-stacked-on-mobile` when stacking is off or the stacking styles when on, never both |
| ColumnsResponsive.UnsetStacksAtMobile | better-block-editor/Modules/ColumnsResponsive/Module.php:106-138 | stacking columns without a responsive group, on a site with the default breakpoints, stack below 480px and are not reversed |
| ColumnsResponsive.NotStackedHasNoStyles | better-block-editor/Modules/ColumnsResponsive/Module.php:90-92 | columns with stacking turned off never get styles, whatever their responsive settings say |
| Css.MediaQueryStored | better-block-editor/Core/BlockUtils.php:143-186 | a style for one media query with a non-empty query reaches the style store as exactly one rule, in the `core` context, under that query |
| Css.EncodeMediaOne | better-block-editor/Core/BlockUtils.php:173-186 | the array built for one media query is a single rule whose selector is the query and whose declarations are a non-empty list of selector rules |
| Css.EncodeDeclsLookup | better-block-editor/Core/BlockUtils.php:173-186 | a declaration list given as a PHP array literal reads each property's last assigned value and nothing for an unassigned one |
| Css.DeclaredAppend | better-block-editor/Core/BlockUtils.php:115-127 | inline declarations appended after earlier ones override a property they set and leave the others as they were |
| DemoInfo.SetupFieldsFind | better-block-editor/Modules/DemoContent/Demo/Demo.php:256-270 | after setup exactly the eight allowed fields are present, each holding the given value when the raw data has one and its default otherwise |
| DemoInfo.SetupFields | better-block-editor/Modules/DemoContent/Demo/Demo.php:256-270 | the fields come in the defaults' order, title first and tags last, whatever order or extra keys the raw data has |
| DemoInfo.StatusOf | better-block-editor/Modules/DemoContent/Demo/Demo.php:241-248 | the status is `full_import` exactly when both post types and attachments are imported, `not_imported` otherwise |
| DemoInfo.RefreshAsWritten | better-block-editor/Modules/DemoContent/Demo/Demo.php:67-72 | the refresh as written resets both flags, so the status is always `not_imported` and the fields are untouched |
| DemoInfo.Refresh | better-block-editor/Modules/DemoContent/Demo/Demo.php:62-72 | the documented refresh reads both flags from the demo's history; the status is full exactly when both are recorded |
| DemoInfo.RefreshNeverFull | better-block-editor/Modules/DemoContent/Demo/Demo.php:67-72 | for a demo whose history records both parts, the refresh as written reports not imported while the documented one reports a full import |
| DemoInfo.RefreshAgreesWithoutHistory | better-block-editor/Modules/DemoContent/Demo/Demo.php:67-72 | without any history both refreshes give the same demo |
| DemoInfo.New | better-block-editor/Modules/DemoContent/Demo/Demo.php:57-60 | the constructor as written sets the fields up and always yields a not-imported demo with an empty status label |
| DemoInfo.NewIntended | better-block-editor/Modules/DemoContent/Demo/Demo.php:57-60 | with the documented refresh a new demo is fully imported exactly when its history records both parts |
| DemoInfo.NewNeverFull | better-block-editor/Modules/DemoContent/Demo/Demo.php:57-72 | a demo with a full history is built as not imported by the constructor as written and as fully imported by the intended one |
| DemoInfo.StatusText | better-block-editor/Modules/DemoContent/Demo/Demo.php:79-86 | the label is `(fully imported)` inside the status span for a full import and an empty span otherwise |
| DemoInfo.Field | better-block-editor/Modules/DemoContent/Demo/Demo.php:169-175 | a known field reads its stored value, any other name reads null |
| DemoInfo.SetField | better-block-editor/Modules/DemoContent/Demo/Demo.php:187-211 | a known field takes the cast value and every other field keeps its value; an unknown name changes nothing |
| DemoInfo.Cast | better-block-editor/Modules/DemoContent/Demo/Demo.php:190-205 | `include_attachments` becomes a boolean by truthiness, `attachments_batch` an integer, `required_plugins` and `tags` arrays (an array kept as is), other fields the value itself |
| DemoInfo.CastIdempotent | better-block-editor/Modules/DemoContent/Demo/Demo.php:190-205 | casting an already cast value changes nothing |
| DemoInfo.SetFieldThenGet | better-block-editor/Modules/DemoContent/Demo/Demo.php:169-211 | a field written and read back has the type of its cast, and writing back what was read changes nothing |
| DemoInfo.IsSetField | better-block-editor/Modules/DemoContent/Demo/Demo.php:222-233 | a field is set exactly when it is not null; a declared property is set; any other name is not |
| DemoInfo.Plugins | better-block-editor/Modules/DemoContent/Demo/Demo.php:102-104 | the required plugins are always an array, the stored one when it already is an array |
| DemoInfo.TrailingSlash | better-block-editor/Modules/DemoContent/Demo/Demo.php:111-115 | the directory ends in exactly one slash, after the base with its trailing slashes and backslashes removed |
| DemoInfo.PackagePaths | better-block-editor/Modules/DemoContent/Demo/Demo.php:111-133 | the package directory is the id under `wpbbe-demo-content-tmp/` in the uploads directory; the XML and meta files lie directly in it and differ |
| DemoInfo.ImportMeta | better-block-editor/Modules/DemoContent/Demo/Demo.php:141-161 | no file or non-array JSON gives an empty array, no key gives the whole meta, a present key its value and an absent key null |
| DemoInfo.ImportMetaKeyAgrees | better-block-editor/Modules/DemoContent/Demo/Demo.php:141-161 | asking for one key reads the same value as indexing the whole meta |
| DesignSystemCore.DisablePartsModule | better-block-editor/Modules/DesignSystemCore/Module.php:73-82 | the filter changes its input only to switch the parts module off, and does so exactly under one of the three BBE themes |
| DesignSystemCore.PartsModuleDisabled | better-block-editor/Modules/DesignSystemCore/Module.php:73-104 | under a BBE theme the parts module is neither listed as manageable nor instantiated; under any other theme every active manageable class is listed |
| DesignSystemCore.SetPartActivatedFlag | better-block-editor/Modules/DesignSystemCore/Module.php:144-152 | the call reports a change exactly when the stored flag differs from the value, and writes nothing otherwise |
| DesignSystemCore.SetFlagSettles | better-block-editor/Modules/DesignSystemCore/Module.php:133-152 | after setting, the flag reads as the value set, and setting it again reports no change |
| DesignSystemParts.PartMap | better-block-editor/Modules/DesignSystemParts/Module.php:46-50 | colours bring the palette and the gradients, typography the font sizes, spacing the spacing sizes, any other part nothing |
| DesignSystemParts.MappedParts | better-block-editor/Modules/DesignSystemParts/Module.php:53-57 | an editor setting is listed exactly when some enabled part brings it |
| DesignSystemParts.EnabledKeys | better-block-editor/Modules/DesignSystemParts/Module.php:58-62 | a part's name is listed exactly when the part is enabled |
| DesignSystemParts.FilterDesignSystemParts | better-block-editor/Modules/DesignSystemParts/Module.php:44-65 | the incoming parts are kept, unchanged and first |
| DesignSystemParts.EnabledPartListed | better-block-editor/Modules/DesignSystemParts/Module.php:53-62 | an enabled part contributes its own name and every editor setting it brings |
| DesignSystemParts.SpacingAlwaysActive | better-block-editor/Modules/DesignSystemParts/Module.php:51-62 | spacing and its spacing sizes are always among the parts, whatever is stored |
| DesignSystemParts.MappedPartsIff | better-block-editor/Modules/DesignSystemParts/Module.php:53-57 | with distinct keys, an editor setting is listed exactly when the part that brings it is enabled |
| DesignSystemParts.Whitelist | better-block-editor/Modules/DesignSystemParts/Module.php:151-158 | a settings group is kept exactly when its name is among the active parts |
| DesignSystemParts.GetDesignSystem | better-block-editor/Modules/DesignSystemParts/Module.php:128-177 | a file that does not decode to an array gives an empty array; the editor context gives the remapped view of the whitelisted data, any other context the data itself |
| DesignSystemParts.EditorView | better-block-editor/Modules/DesignSystemParts/Module.php:161-168 | exactly the four editor settings, in order, each read from its part and an empty array when absent |
| DesignSystemParts.ColorOffMeansEmpty | better-block-editor/Modules/DesignSystemParts/Module.php:151-168 | with active parts that do not name colours, the editor's palette and gradients are empty whatever the file holds |
| DesignSystemParts.AddSettings | better-block-editor/Modules/DesignSystemParts/Module.php:181-193 | the existing presets stay unchanged and first; a new preset is appended exactly when its slug is not among the existing presets' slugs, so new presets sharing a fresh slug are all appended |
| DesignSystemParts.AddSettingsIdempotent | better-block-editor/Modules/DesignSystemParts/Module.php:181-193 | merging the same presets a second time adds nothing |
| DesignSystemParts.MergeOne | better-block-editor/Modules/DesignSystemParts/Module.php:78-84 | one editor setting becomes its presets (none when missing or not an array) merged with the new ones; all other settings are unchanged |
| DesignSystemParts.MergeAllFind | better-block-editor/Modules/DesignSystemParts/Module.php:75-87 | every setting the design system names is merged with its presets and every other setting is unchanged |
| DesignSystemParts.EditorSettingsMerged | better-block-editor/Modules/DesignSystemParts/Module.php:75-87 | the four editor settings are merged with the design system's presets, all other settings are untouched |
| DesignSystemParts.UpdateSettings | better-block-editor/Modules/DesignSystemParts/Module.php:220-230 | a non-array payload is rejected with nothing written; an array is stored as the active parts and returned |
| DesignSystemParts.UpdateThenRead | better-block-editor/Modules/DesignSystemParts/Module.php:220-230 | saved parts read back as the module's active parts |
| FlexItemPreventShrinking.Render | better-block-editor/Modules/FlexItemPreventShrinking/Module.php:32-44 | a non-empty block gets exactly the marker class when its parent counts as flex and its switch counts as on, and is left as it is otherwise; the flag chooses between the tests as written and as intended |
| FlexItemPreventShrinking.IntendedMarks | better-block-editor/Modules/FlexItemPreventShrinking/Module.php:32-44 | the intended reading marks a block exactly when its parent's layout type is `flex` and its switch is strictly true |
| FlexItemPreventShrinking.IntendedNarrower | better-block-editor/Modules/FlexItemPreventShrinking/Module.php:37-38 | every block the intended reading marks is marked the same way by the code as written |
| FlexItemPreventShrinking.GridParentDiscrepancy | better-block-editor/Modules/FlexItemPreventShrinking/Module.php:37 | a switched-on block in a grid is marked by the code as written but not by the intended test |
| FlexItemPreventShrinking.NoParentDiscrepancy | better-block-editor/Modules/FlexItemPreventShrinking/Module.php:37 | a switched-on block whose parent has no layout type is marked by the code as written but not by the intended test |
| FontDownloader.RenumberIntKeyed | better-block-editor/Modules/DemoContent/FontDownloader.php:64 | `array_merge` of lists appends the values in order under fresh consecutive integer keys |
| FontDownloader.Faces | better-block-editor/Modules/DemoContent/FontDownloader.php:61-63 | a family contributes exactly when its `fontFace` is a non-empty array, and then contributes that array |
| FontDownloader.CollectConcatenates | better-block-editor/Modules/DemoContent/FontDownloader.php:60-65 | the loop yields the faces of the families, in family order, skipping families without a non-empty face list |
| FontDownloader.FontsFromJson | better-block-editor/Modules/DemoContent/FontDownloader.php:50-69 | the pending list is cleared first; an undecodable or falsy payload, or one without custom font families, gives no fonts and leaves it cleared; otherwise the in-order concatenation of the faces is returned and becomes the pending list |
| FontDownloader.FontsToDownload | better-block-editor/Modules/DemoContent/FontDownloader.php:147-151 | a missing or falsy transient gives an empty array; a stored array comes back as it is |
| FontDownloader.SourceName | better-block-editor/Modules/DemoContent/FontDownloader.php:190-195 | a face whose `src` is neither a string nor an array has no file name |
| FontDownloader.KeepAll | better-block-editor/Modules/DemoContent/FontDownloader.php:182-200 | the faces that stay are exactly the queued ones that are not arrays or whose file name differs from the uploaded file |
| FontDownloader.KeepAllUnchanged | better-block-editor/Modules/DemoContent/FontDownloader.php:182-200 | the list comes back unchanged exactly when every face stays |
| FontDownloader.FontWasUploaded | better-block-editor/Modules/DemoContent/FontDownloader.php:178-203 | the stored list afterwards is the faces that stay, in their order and renumbered |
| FontDownloader.UploadIdempotent | better-block-editor/Modules/DemoContent/FontDownloader.php:178-203 | crossing the same file off twice leaves the same list as crossing it off once |
| GridResponsive.DeclarationsSpec | better-block-editor/Modules/GridResponsive/Module.php:43-58 | one column exactly for a truthy stack switch, `position: static` exactly for a truthy stickiness switch, the gap marked `!important` exactly when it is not null (so a gap of 0 counts) |
| GridResponsive.Render | better-block-editor/Modules/GridResponsive/Module.php:34-67 | a block is changed exactly when it passes the shared checks and uses the grid layout; it then gets its unique class and one rule below the switch width on the doubled class selector, even when no switch is on |
| GroupResponsive.NeedSpec | better-block-editor/Modules/GroupResponsive/Module.php:34-37 | the loose `in_array` accepts the layout types `default` and `constrained`, and also `true` |
| GroupResponsive.MarginsSpec | better-block-editor/Modules/GroupResponsive/Module.php:45-49 | the left margin is 0 exactly for `left` justification and the right one exactly for `right`, both `!important` and never both 0; anything else centres |
| GroupResponsive.Styles | better-block-editor/Modules/GroupResponsive/Module.php:45-65 | one rule for the margins on the group's children that are not aligned left, right or full, and a second one making the group static exactly when the stickiness switch is truthy, both below the switch width |
| GroupResponsive.Render | better-block-editor/Modules/GroupResponsive/Module.php:34-68 | a block is changed exactly when it passes the shared checks and uses a plain or constrained layout; it then gets its unique class and the rules above |
| PostTemplateResponsive.DeclarationsSpec | better-block-editor/Modules/PostTemplateResponsive/Module.php:46-54 | the grid always collapses to one column, marked `!important`; the gap, even 0, is set exactly when it is not null |
| PostTemplateResponsive.Render | better-block-editor/Modules/PostTemplateResponsive/Module.php:33-63 | a block is changed exactly when it passes the shared checks and uses the grid layout; it then gets its unique class and one rule on `body .id` below the switch width |
| TextResponsive.NeedSpec | better-block-editor/Modules/TextResponsive/Module.php:23-40 | the loose `in_array` accepts exactly the post title, post excerpt, heading and paragraph block names, and also `true` |
| TextResponsive.Render | better-block-editor/Modules/TextResponsive/Module.php:38-59 | a block is changed exactly when it passes the shared checks, is one of the four text blocks and has a truthy responsive alignment; it then gets its unique class and that `text-align` on `body .id` below the switch width |
| TextResponsive.OtherBlocksUntouched | better-block-editor/Modules/TextResponsive/Module.php:38-40 | a block of any other name is left as it is, whatever its settings |
| RowResponsive.VerticalAlignmentSpec | better-block-editor/Modules/RowResponsive/Module.php:54-68 | the vertical map is defined exactly on top, bottom, center, stretch and space-between, and the reversed map is the plain map with top and bottom exchanged |
| RowResponsive.AlignmentsSpec | better-block-editor/Modules/RowResponsive/Module.php:72-94 | the horizontal alignment, reversed for `row-reverse`, and the vertical alignment, reversed for `column-reverse`, land on the two distinct properties the orientation picks, both `!important`, and the direction is the orientation itself |
| RowResponsive.SwitchesSpec | better-block-editor/Modules/RowResponsive/Module.php:96-105 | `position: static` exactly for a truthy stickiness switch, and the gap, even 0, exactly when it is not null |
| RowResponsive.HorizontalWords | better-block-editor/Modules/RowResponsive/Module.php:124 | the loose `in_array` counts `row`, `row-reverse` and `true` as horizontal, and nothing else |
| RowResponsive.Rules | better-block-editor/Modules/RowResponsive/Module.php:107-136 | one media query below the switch width holding the declarations on `body .id.id`, followed by a flex-basis reset on its children exactly when the orientation turns |
| RowResponsive.AsWrittenTurns | better-block-editor/Modules/RowResponsive/Module.php:123-125 | as written the reset comes exactly when the responsive orientation is not horizontal, whatever the group's own layout says |
| RowResponsive.HorizontalLayoutAgrees | better-block-editor/Modules/RowResponsive/Module.php:120-125 | for a group whose layout orientation is unset or horizontal the code as written and the intended reading agree |
| RowResponsive.IntendedTurns | better-block-editor/Modules/RowResponsive/Module.php:119-131 | read as intended, the children are reset exactly when the group turns: a row shown as a column, a stack shown as a row, or an unknown layout orientation |
| RowResponsive.VerticalStackDiscrepancy | better-block-editor/Modules/RowResponsive/Module.php:123 | a vertical stack kept as a column below the switch width gets the reset as written but not under the intended reading |
| RowResponsive.Render | better-block-editor/Modules/RowResponsive/Module.php:34-45 | a block is changed exactly when it passes the shared checks and uses the flex layout; it then gets its unique class and the rules above |
| NavigationResponsive.SwitchWidth | better-block-editor/Modules/NavigationResponsive/Module.php:53-59 | the switch width is never falsy: a breakpoint that resolves to nothing falls back to `0px` |
| NavigationResponsive.BlocksSpec | better-block-editor/Modules/NavigationResponsive/Module.php:69-100 | above the switch width the overlay opener and the close button are not displayed and the menu container is displayed as a block |
| NavigationResponsive.Render | better-block-editor/Modules/NavigationResponsive/Module.php:34-50 | a block is changed exactly when it is a non-empty navigation block with a truthy breakpoint; it then gets its unique class and the marker class and exactly one media query above its switch width |
| NavigationResponsive.UnknownBreakpointExpands | better-block-editor/Modules/NavigationResponsive/Module.php:53-59 | a breakpoint that is neither `custom` nor saved puts the rules above `0px`, so the menu is always expanded |
| NavigationResponsive.CustomBreakpointSwitches | better-block-editor/Modules/NavigationResponsive/Module.php:53-59 | a custom breakpoint with a truthy value switches exactly at that value |
| NavigationHoverColors.Part | better-block-editor/Modules/NavigationHoverColors/Module.php:44-58 | a colour changes the block exactly when it is not null |
| NavigationHoverColors.Render | better-block-editor/Modules/NavigationHoverColors/Module.php:33-61 | a block is changed exactly when it is a non-empty navigation block with a menu or a submenu hover colour; the menu colour's change comes first |
| NavigationHoverColors.PropertiesSpec | better-block-editor/Modules/NavigationHoverColors/Module.php:44-58 | each colour lands on its own custom property as its CSS value, and a missing colour sets no property |
| NavigationHoverColors.ClassesSpec | better-block-editor/Modules/NavigationHoverColors/Module.php:44-58 | `has-hover` is added exactly for a menu colour and `has-submenu-hover` exactly for a submenu colour, in that order |
| Responsive.GetSetting | better-block-editor/Core/ResponsiveBlockUtils.php:67-69 | a setting reads as null only when its default is null |
| Responsive.SettingRoundTrip | better-block-editor/Core/ResponsiveBlockUtils.php:67-69 | a saved non-null setting is read back whatever the default, and saving one setting leaves every other setting as it was |
| Responsive.Fallback | better-block-editor/Base/ResponsiveBlockModuleBase.php:44-77 | a falsy switch width becomes `0px` and a truthy one is kept, so the result is never falsy |
| Responsive.SwitchesAvoid | better-block-editor/Core/ResponsiveBlockUtils.php:87-101 | the stickiness and gap switches set no property other than `position` and `gap` |
| Responsive.SwitchesSpec | better-block-editor/Core/ResponsiveBlockUtils.php:87-101 | after declarations that set neither, `position` is `static` exactly for a truthy switch and `gap` is set exactly when it is not null |
| Responsive.Guard | better-block-editor/Base/ResponsiveBlockModuleBase.php:44-77 | a block reaches a module's own check exactly when its content is non-empty, its responsive group is an array, its name does not strictly differ from the module's, and its switch width resolves; the module then sees the block's attributes, an array, and that width |
| Responsive.NamelessPasses | better-block-editor/Base/ResponsiveBlockModuleBase.php:55-59 | a block without a name passes the name check of every module |
| Responsive.CustomBreakpointPasses | better-block-editor/Base/ResponsiveBlockModuleBase.php:44-77 | a non-empty responsive block of the right name with the `custom` breakpoint and a value passes the guards and switches at that value, whatever breakpoints are saved |
| Responsive.OffBreakpointStops | better-block-editor/Base/ResponsiveBlockModuleBase.php:64-69 | a block whose breakpoint is the off value `''` is never rendered on a site that kept the default breakpoints |
| ModuleBase.ModuleOption | better-block-editor/Base/ModuleBase.php:291-301 | a module whose option was never saved reads every setting as the default, and a setting reads as null only for a null default |
| ModuleBase.SetModuleOption | better-block-editor/Base/ModuleBase.php:303-310 | the module's option becomes its old settings with the one key set, as the sanitiser returns it; every other option is unchanged |
| ModuleBase.SetThenGet | better-block-editor/Base/ModuleBase.php:291-310 | a setting written reads back (unless the sanitiser changes it) and no other module's settings change |
| ModulesManager.Implementing | better-block-editor/Core/ModulesManager.php:43-54 | exactly the names that implement the module interface are kept |
| ModulesManager.GroupAppend | better-block-editor/Core/ModulesManager.php:57-64 | taking the core (or non-core) classes of two lists one after the other is taking them of each list |
| ModulesManager.GroupSplit | better-block-editor/Core/ModulesManager.php:57-64 | the core and the non-core classes together are the classes, with multiplicity |
| ModulesManager.CoreFirst | better-block-editor/Core/ModulesManager.php:57-66 | the sorted list is a permutation of the classes |
| ModulesManager.CoreFirstOrdered | better-block-editor/Core/ModulesManager.php:57-66 | after the sort no core class comes after a non-core one, and the core and the non-core classes each keep their original order |
| ModulesManager.CoreFirstUnique | better-block-editor/Core/ModulesManager.php:57-66 | any list that is core-first and keeps both groups in their original order is exactly the sort's result |
| ModulesManager.CoreCount | better-block-editor/Core/ModulesManager.php:57-66 | a core-first list splits into a prefix of core classes and a suffix of non-core ones |
| ModulesManager.PrepareClassnames | better-block-editor/Core/ModulesManager.php:36-67 | a class is prepared exactly when it survives the class-name filter and implements the module interface; the result is core-first |
| ModulesManager.IsEnabled | better-block-editor/Core/ModulesManager.php:151-157 | an inactive class is passed to the filter as disabled; an active one with its stored switch, or its default state when none is stored |
| ModulesManager.Visit | better-block-editor/Core/ModulesManager.php:76-91 | a class is listed as manageable exactly when it is active, manageable and let through by the filter; it gets an instance under its identifier exactly when it is active and either not manageable or listed and enabled; nothing else changes |
| ModulesManager.BuildContents | better-block-editor/Core/ModulesManager.php:75-93 | the manager lists exactly the listed classes, in order; an identifier holds an instance exactly when some instantiated class has it, and then holds such a class |
| ModulesManager.ModulesData | better-block-editor/Core/ModulesManager.php:124-142 | one row per manageable class, in order, with its identifier, its enabled state, whether it implements the module interface, its name, and whether an instance exists under its identifier |
| ModulesManager.ModulesDataOfConstructed | better-block-editor/Core/ModulesManager.php:124-142 | in a constructed manager every row is freemium and listed, and a row is active exactly when some instantiated class has its identifier |
| ModulesManager.GetModules | better-block-editor/Core/ModulesManager.php:175-185 | a falsy name gives all instances; any other name gives the instance under it, or null when there is none |
| PageUrl.DropQuery | better-block-editor/admin/js/demo-content/page.js:350 | a URL without `?` or `#` is unchanged; on one line the result is the prefix before the first `?` or `#` |
| PageUrl.DropQueryMultiLine | better-block-editor/admin/js/demo-content/page.js:350 | on a URL spanning lines only the rest of the first query's line is dropped |
| PageUrl.WithSlash | better-block-editor/admin/js/demo-content/page.js:351 | the result ends in exactly the slash that was there, or one added |
| PageUrl.SanitizeUrl | better-block-editor/admin/js/demo-content/page.js:346-354 | the result starts with `https://`; a one-line URL gives a result without query, fragment or line break; a URL without `https://` is just prefixed; the trailing slash is lost only when the first `https://` ends the text |
| PageUrl.SanitizeUrlFixed | better-block-editor/admin/js/demo-content/page.js:346-354 | a clean one-line `https://` URL ending in a slash comes back unchanged |
| PageUrl.SanitizeUrlIdempotent | better-block-editor/admin/js/demo-content/page.js:346-354 | sanitising a one-line URL twice is sanitising it once, unless the first pass lost the trailing slash |
| PageUrl.SanitizeUrlLosesSlash | better-block-editor/admin/js/demo-content/page.js:346-354 | `ahttps://` sanitises to `https://a`, without a trailing slash |
| PageUrl.SanitizeUrlHttp | better-block-editor/admin/js/demo-content/page.js:346-354 | an `http://` URL keeps its own scheme after the new one |
| PageUrl.Segments | better-block-editor/admin/js/demo-content/page.js:357-363 | at most two pieces, none empty and none holding a slash |
| PageUrl.NormalizeUrl | better-block-editor/admin/js/demo-content/page.js:356-365 | the result ends in a slash, is just `/` when there are no pieces, and otherwise splits back into the host and first path segment |
| PageUrl.NormalizeSanitized | better-block-editor/admin/js/demo-content/page.js:356-365 | normalising a sanitised URL is normalising the URL |
| PageUrl.SplitJoin | better-block-editor/admin/js/demo-content/page.js:358-363 | splitting undoes joining pieces that hold no separator |
| Plugin.BundleModeOfConstructed | better-block-editor/plugin.php:125-134 | for a constructed manager, bundle mode holds exactly when every listed module is enabled, and then every listed module has an instance |
| Plugin.IsFeatureActive | better-block-editor/plugin.php:143-145 | a truthy name is active exactly when an instance is kept under it; a falsy name is active exactly when any module has an instance |
| Plugin.ActiveFeaturesKeys | better-block-editor/plugin.php:153-166 | an identifier is listed exactly when some kept instance that is not a core module has it |
| Plugin.ActiveFeaturesOfConstructed | better-block-editor/plugin.php:153-166 | for a constructed manager the active feature keys are exactly the identifiers whose instance is not a core module |
| Plugin.BundledAssets | better-block-editor/plugin.php:100-114 | assets are processed only in bundle mode: the editor and editor-content bundles in the admin, the view bundle elsewhere |
| ImportBatch.TimeLimit | better-block-editor/Modules/DemoContent/Importers/ContentImporter.php:119-125 | the budget is between 1 and 40 seconds: 20 without `ini_get` or for a limit of at most 10 seconds, otherwise the limit less 10 seconds, capped at 40 |
| ImportBatch.Survivors | better-block-editor/Modules/DemoContent/Importers/ContentImporter.php:223-230 | a post is kept exactly when it is an attachment and attachments are fetched, or it is not one and they are not |
| ImportBatch.ImportStart | better-block-editor/Modules/DemoContent/Importers/ContentImporter.php:220-232 | the posts become the survivors and the total is their number; nothing else in the session changes |
| ImportBatch.Unprocessed | better-block-editor/Modules/DemoContent/Importers/ContentImporter.php:201-209 | a post is left exactly when its id is not a key of the identity map, and the posts left and the posts counted as imported account for every post |
| ImportBatch.SliceLength | better-block-editor/Modules/DemoContent/Importers/ContentImporter.php:211 | `array_slice` from 0 keeps `length` elements (all when fewer), and a negative length stops that many before the end |
| ImportBatch.CutBatch | better-block-editor/Modules/DemoContent/Importers/ContentImporter.php:201-212 | every post whose id is a key of the identity map, even one mapped to null, is dropped and counted as imported; the batch is the first `batch` of the rest, in order; nothing else changes |
| ImportBatch.CacheOf | better-block-editor/Modules/DemoContent/Importers/ContentImporter.php:1058-1072 | the cache holds the session's identity maps, featured images, URL map and statistics |
| ImportBatch.Restore | better-block-editor/Modules/DemoContent/Importers/ContentImporter.php:1080-1107 | without a stored session nothing changes; each stored group replaces the current one only when it is non-empty, and nothing else changes |
| ImportBatch.RestoreRoundTrip | better-block-editor/Modules/DemoContent/Importers/ContentImporter.php:1058-1107 | a fresh request restoring an earlier request's cache sees that request's identity maps, featured images, URL map and statistics |
| ImportBatch.ImportBatchRequest | better-block-editor/Modules/DemoContent/Importers/ContentImporter.php:75-160 | the total is the number of posts of the kind being imported; with no batch everything is imported at once and nothing is left; otherwise `left` is the total less the imported posts and lies between 0 and the total; the cache is the session's |
| ImportFiles.LengthAgreesNumeric | better-block-editor/Modules/DemoContent/Importers/ContentImporter.php:693 | the received size agrees with `Content-Length` exactly when the header is a numeric string denoting that size |
| ImportFiles.PlainLengthAgrees | better-block-editor/Modules/DemoContent/Importers/ContentImporter.php:693 | a plain decimal header of the size agrees |
| ImportFiles.PaddedLengthAgrees | better-block-editor/Modules/DemoContent/Importers/ContentImporter.php:693 | the header agrees with leading white space too |
| ImportFiles.SignedLengthAgrees | better-block-editor/Modules/DemoContent/Importers/ContentImporter.php:693 | the header agrees with a leading plus sign too |
| ImportFiles.TrailingSpaceLengthAgrees | better-block-editor/Modules/DemoContent/Importers/ContentImporter.php:693 | the header agrees with trailing white space too |
| ImportFiles.FractionLengthAgrees | better-block-editor/Modules/DemoContent/Importers/ContentImporter.php:693 | the header agrees with a zero fraction too |
| ImportFiles.Check | better-block-editor/Modules/DemoContent/Importers/ContentImporter.php:658-707 | a response passes exactly when there is one, its status is 200, a `Content-Length` present agrees, the size is not zero and (with a limit) within the limit; no response and a bad status give their own errors |
| ImportFiles.StatusCheckedBeforeSize | better-block-editor/Modules/DemoContent/Importers/ContentImporter.php:679-707 | a non-200 status is the error whatever the headers and size |
| ImportFiles.FetchRemoteFile | better-block-editor/Modules/DemoContent/Importers/ContentImporter.php:631-720 | an upload-directory error is returned with nothing deleted; otherwise the download succeeds exactly when the checks pass; a rejection deletes the placeholder and leaves the URL map alone; success maps the URL, the guid and a differing final location to the local URL and leaves every other entry alone |
| ImportFiles.Predict | better-block-editor/Modules/DemoContent/Importers/ContentImporter.php:551-562 | no prediction for a size of at most zero or fewer than three samples; otherwise the predictor's estimate |
| ImportFiles.AfterDownload | better-block-editor/Modules/DemoContent/Importers/ContentImporter.php:452-525 | pre-generated sizes are downloaded exactly for a raster image with downloads allowed, post meta present, the insert succeeded and a prediction above three seconds; a sample is recorded exactly on the local path for a raster image of known size |
| ImportFiles.AttachmentUrl | better-block-editor/Modules/DemoContent/Importers/ContentImporter.php:435-438 | a site-relative URL is resolved against the base URL without its trailing slashes; any other URL is kept |
| ImportFiles.UrlStubOf | better-block-editor/Modules/DemoContent/Importers/ContentImporter.php:527-536 | the stub of `dir/name.ext` is `dir/name` |
| ImportFiles.RemapStub | better-block-editor/Modules/DemoContent/Importers/ContentImporter.php:527-536 | for an image the stub of the source URL maps to the stub of the local URL; nothing else changes |
| ImportFiles.ProcessAttachment | better-block-editor/Modules/DemoContent/Importers/ContentImporter.php:426-540 | with fetching disabled nothing happens; a failed download is the error and leaves the session alone; otherwise the session takes the download's URL map, the stub entry and the new statistics |
| ImportFiles.ImageStubRemapped | better-block-editor/Modules/DemoContent/Importers/ContentImporter.php:527-536 | after an image `dir/name.ext` is imported, `dir/name` maps to the stub of the local file |
| ImportFiles.OneSamplePerAttachment | better-block-editor/Modules/DemoContent/Importers/ContentImporter.php:515-523 | an attachment adds at most one timing sample, and only from a raster image processed locally |
| ImportFiles.NoDownloadWithoutSamples | better-block-editor/Modules/DemoContent/Importers/ContentImporter.php:484-553 | sizes are never downloaded before three samples exist |
| ImportMenus.MenuSlug | better-block-editor/Modules/DemoContent/Importers/ContentImporter.php:305-314 | no slug exactly when no term is in the `nav_menu` taxonomy; otherwise the slug of the first such term |
| ImportMenus.TargetMenu | better-block-editor/Modules/DemoContent/Importers/ContentImporter.php:298-330 | drafts, items without a truthy menu slug and slugs with no local menu have no target; otherwise the local menu of the slug |
| ImportMenus.ResolveObject | better-block-editor/Modules/DemoContent/Importers/ContentImporter.php:336-348 | a custom link keeps its object; a taxonomy or post item takes the local id of its mapped target; an item is missing exactly when it is neither custom nor a mapped taxonomy or post target |
| ImportMenus.ResolveParent | better-block-editor/Modules/DemoContent/Importers/ContentImporter.php:350-355 | a mapped parent is translated with nothing queued; an unmapped truthy parent becomes 0 and is queued; anything else is passed on |
| ImportMenus.Untrailingslashit | better-block-editor/Modules/DemoContent/Importers/ContentImporter.php:363 | the result is a prefix of the input that ends in neither `/` nor `\\` |
| ImportMenus.MenuUrl | better-block-editor/Modules/DemoContent/Importers/ContentImporter.php:363-368 | without a usable base URL the value is untouched; a URL starting with the base URL has that start replaced by the home URL; any other URL is kept |
| ImportMenus.MenuUrlAsWritten | better-block-editor/Modules/DemoContent/Importers/ContentImporter.php:363-368 | as written the base URL is a regular expression, so its dots match any character but a line break; a URL the pattern matches has its matched start replaced by the home URL |
| ImportMenus.AsWrittenExtendsMenuUrl | better-block-editor/Modules/DemoContent/Importers/ContentImporter.php:363-368 | on every URL that starts with the base URL the pattern and the literal test agree |
| ImportMenus.WildcardDotDiscrepancy | better-block-editor/Modules/DemoContent/Importers/ContentImporter.php:367 | a URL that differs from the base URL only where the base URL has a dot is rewritten by the pattern and left alone by the literal test |
| ImportMenus.CopiedMeta | better-block-editor/Modules/DemoContent/Importers/ContentImporter.php:399-407 | every meta entry with a non-empty value and a non-standard key is copied onto the new item, its value through `maybe_unserialize`, and nothing else is |
| ImportMenus.PlanItem | better-block-editor/Modules/DemoContent/Importers/ContentImporter.php:298-387 | there is no insert when the item has no target menu or its object is missing; otherwise the insert goes to the target menu with the translated object and parent, the rewritten URL, the classes through `maybe_unserialize` and then joined when they are an array, and the item's type, position, title and status |
| ImportMenus.SerialisedClassesJoined | better-block-editor/Modules/DemoContent/Importers/ContentImporter.php:357-360 | classes exported as a serialised array `a:<n>:{…}` reach the insert as the unserialised array's entries joined by spaces |
| ImportMenus.PlainClassesKept | better-block-editor/Modules/DemoContent/Importers/ContentImporter.php:357-360 | a class string with neither `:` nor `;` is not taken for serialised data and reaches the insert unchanged |
| Wp.PlainTextKept | better-block-editor/Modules/DemoContent/Importers/ContentImporter.php:406 | `maybe_unserialize` returns text with neither `:` nor `;` unchanged, whatever `unserialize` would do |
| Wp.SerialisedArrayRead | better-block-editor/Modules/DemoContent/Importers/ContentImporter.php:357 | `maybe_unserialize` hands serialised array text `a:<digits>:{…}` to `unserialize` |
| Php.FloatExponentRead | better-block-editor/Core/Settings.php:242 | `floatval` reads an exponent: `"1e5"` is 100000 and `"1e3"` is 1000 |
| Php.IntExponentRead | better-block-editor/Modules/DemoContent/Importers/ContentImporter.php:1041 | the `(int)` cast reads an exponent: `"1e3"` is 1000 |
| ImportMenus.ProcessMenuItem | better-block-editor/Modules/DemoContent/Importers/ContentImporter.php:296-415 | only the menu parts of the session can change; a skipped item changes nothing; a missing target queues the item; otherwise an orphaned parent is queued, and a successful insert records the new id and copies the custom meta, while a failed one records nothing |
| ImportMenus.OrphanGoesToTopLevel | better-block-editor/Modules/DemoContent/Importers/ContentImporter.php:350-355 | an item whose truthy parent is not mapped is inserted at the top level and its parent is remembered |
| ImportMenus.UnmappedTargetIsQueued | better-block-editor/Modules/DemoContent/Importers/ContentImporter.php:336-346 | a taxonomy or post item whose target was not imported is queued and nothing else changes |
| ImportPage.Start | better-block-editor/admin/js/demo-content/page.js:88-91 | a new object holds the given steps and no retries |
| ImportPage.Without | better-block-editor/admin/js/demo-content/page.js:97-100 | the steps left are exactly the others, in order |
| ImportPage.Done | better-block-editor/admin/js/demo-content/page.js:97-102 | the step leaves the list entirely, every other step stays, and the retry counter starts over |
| ImportPage.DoneIdempotent | better-block-editor/admin/js/demo-content/page.js:97-102 | marking a step done twice is marking it done once |
| ImportPage.DoneAbsent | better-block-editor/admin/js/demo-content/page.js:97-102 | marking a step that is not pending done only resets the counter |
| ImportPage.AttemptRetry | better-block-editor/admin/js/demo-content/page.js:108-125 | the counter goes up by one, and the retry is granted exactly when the counter is then at most three and the first pending step is the attachments step |
| ImportPage.AttemptsGranted | better-block-editor/admin/js/demo-content/page.js:108-125 | of a run of failures with no progress between them, a retry is granted exactly while fewer than three came before it and attachments are pending, so never more than three in a row |
| ImportPage.OnFailure | better-block-editor/admin/js/demo-content/page.js:217-224 | a failed chain runs again exactly when a retry is granted, and then from the attachments step |
| ImportPage.FeedbackText | better-block-editor/admin/js/demo-content/page.js:329-336 | a known step shows its progress string, any other its own name |
| ImportPage.EveryStepHasFeedback | better-block-editor/admin/js/demo-content/page.js:8-20 | every step the server can plan has a progress string of its own |
| ImportPage.ProgressText | better-block-editor/admin/js/demo-content/page.js:271-279 | the text after a batch is the attachments string followed by the counts in parentheses |
| ImportPage.Shown | better-block-editor/admin/js/demo-content/page.js:282-321 | the trimmed text of a feedback element is its text when that neither starts nor ends with white space |
| ImportPage.LoopOutcome | better-block-editor/admin/js/demo-content/page.js:266-308 | a finished loop leaves the attachments step done and the counter reset; any other ending leaves the pending steps alone |
| ImportPage.ProgressTextInjective | better-block-editor/admin/js/demo-content/page.js:271-283 | two batches read the same exactly when they report the same imported and total counts |
| ImportPage.ProgressNeverStalls | better-block-editor/admin/js/demo-content/page.js:281-283 | while every reply arrives and changes the counts, the loop neither stalls nor fails |
| ImportPage.RepeatStalls | better-block-editor/admin/js/demo-content/page.js:281-283 | a batch repeating the previous counts fails the chain |
| ImportPage.FirstText | better-block-editor/admin/js/demo-content/page.js:190-208 | the first batch shows the attachments string; on a retry it shows the remembered text followed by the retry count |
| ImportPage.FirstRunProgresses | better-block-editor/admin/js/demo-content/page.js:190-283 | a run whose batches keep changing the counts does not stall on its first batch, retried or not |
| ImportPosts.ExistingPost | better-block-editor/Modules/DemoContent/Importers/ContentImporter.php:240-255 | only an attachment with meta and an `_wp_attached_file` entry can match an existing post, and then the local attachment with that file; every other post is inserted anew |
| ImportPosts.ResolvePostParent | better-block-editor/Modules/DemoContent/Importers/ContentImporter.php:820-831 | a zero parent stays 0; a mapped parent is translated; an unmapped one is queued and becomes 0 |
| ImportPosts.Author | better-block-editor/Modules/DemoContent/Importers/ContentImporter.php:833-839 | a mapped author becomes its local user; any other the current user |
| ImportPosts.Outcome | better-block-editor/Modules/DemoContent/Importers/ContentImporter.php:815-896 | a post matching an existing local post of its type reuses it; any other is inserted under the resolved parent and author |
| ImportPosts.ImportedMeta | better-block-editor/Modules/DemoContent/Trackers/ContentTracker.php:117-124 | while a demo is tracked, the tracker's tag is appended to the post's meta |
| ImportPosts.MetaRowFor | better-block-editor/Modules/DemoContent/Importers/ContentImporter.php:1016-1043 | the exporter's own key and keys the base importer rejects are not written; `_edit_last` is written only with a mapped author, as the local id when that is non-zero; any other value is written through `maybe_unserialize` |
| ImportPosts.MetaRows | better-block-editor/Modules/DemoContent/Importers/ContentImporter.php:1015-1046 | every row an entry produces is written, and nothing else is |
| ImportPosts.Featured | better-block-editor/Modules/DemoContent/Importers/ContentImporter.php:1040-1042 | a post with no `_thumbnail_id` row keeps its featured image entry |
| ImportPosts.ImportMeta | better-block-editor/Modules/DemoContent/Importers/ContentImporter.php:1008-1046 | the rows are appended to the meta writes; only the meta writes and the featured images change |
| ImportPosts.ProcessPost | better-block-editor/Modules/DemoContent/Importers/ContentImporter.php:761-1046 | unknown types, already mapped ids and auto-drafts change nothing; menu items go to the menu handling; any other post is counted once, recorded under its id (null on failure) with every other entry kept, and an unmapped parent of a new post is queued; the total never changes |
| ImportPosts.ProcessPostsCountBounds | better-block-editor/Modules/DemoContent/Importers/ContentImporter.php:761-897 | the counter never goes down and goes up by at most one per post handled before time runs out |
| ImportPosts.ProcessPostsTotal | better-block-editor/Modules/DemoContent/Importers/ContentImporter.php:754-1049 | processing posts leaves the reported total alone |
| ImportPosts.ProcessPostsStopsAtBudget | better-block-editor/Modules/DemoContent/Importers/ContentImporter.php:761-765 | once time is exceeded nothing more happens: only the posts within the budget matter |
| ImportPosts.HandledPostsAreMapped | better-block-editor/Modules/DemoContent/Importers/ContentImporter.php:761-913 | every post within the budget whose type exists and that is neither an auto-draft nor a menu item ends up a key of the identity map |
| ImportSession.Lookup | better-block-editor/Modules/DemoContent/Importers/ContentImporter.php:1134-1140 | an unmapped id (absent, or recorded as null) gives 0; a mapped one gives its local id |
| ImportSession.LookupKey | better-block-editor/Modules/DemoContent/Importers/ContentImporter.php:1134-1201 | an id read as a PHP value is looked up under the array key it selects; a value selecting a string key, or none, gives 0 |
| ImportSession.Record | better-block-editor/Modules/DemoContent/Importers/ContentImporter.php:899-910 | after recording, the id finds the recorded value, every other id finds what it found before, and no key is lost |
| ImportSession.MetaVar | better-block-editor/Modules/DemoContent/Importers/ContentImporter.php:332-334 | null exactly when no meta entry has the key; otherwise the value of the last entry with that key |
| ImportSession.Empty | better-block-editor/Modules/DemoContent/Importers/ContentImporter.php:33-34 | a fresh request has the parsed posts, nothing mapped and nothing counted |
| ImportSession.LookupAfterRecord | better-block-editor/Modules/DemoContent/Importers/ContentImporter.php:899-910 | a lookup after a successful record gives the new id, after a failed one 0, and other ids are unaffected (the lookup is at ContentImporter.php:1134-1140) |
| Remover.TaggedPosts | better-block-editor/Modules/DemoContent/Remover.php:100-106 | exactly the posts carrying a `_wpbbe_imported_item` meta row whose value is the demo's id |
| Remover.TaggedTerms | better-block-editor/Modules/DemoContent/Remover.php:120-126 | exactly the terms carrying a `_wpbbe_imported_item` meta row whose value is the demo's id |
| Remover.RemovePosts | better-block-editor/Modules/DemoContent/Remover.php:97-110 | a post survives iff it existed and is not tagged for the demo; the meta of a deleted post goes with it, and the meta of a tagged id with no post (its tag included) is left behind; nothing else in the site changes |
| Remover.RemoveTerms | better-block-editor/Modules/DemoContent/Remover.php:117-133 | a term survives iff it existed and is not tagged; meta of a tagged term that no longer exists is left behind; nothing else changes |
| Remover.RevertGlobalStyles | better-block-editor/Modules/DemoContent/Remover.php:73-90 | the saved styles are written into the user's global styles post only when both the saved styles are truthy and such a post exists; otherwise the store is unchanged |
| Remover.RemoveContent | better-block-editor/Modules/DemoContent/Remover.php:50-54 | tagged posts and terms are gone, untagged ones survive, the meta of a deleted post goes with it while that of a tagged id with no post stays, the global styles are reverted as above, and options, theme mods and tracker are untouched |
| Remover.RevertOptions | better-block-editor/Modules/DemoContent/Remover.php:140-191 | a falsy saved group changes nothing; otherwise each option reads the last value saved for its name (others keep theirs), the group's tracker key is removed, every other key and every other demo's history is kept |
| Remover.RevertOptionsKeyed | better-block-editor/Modules/DemoContent/Remover.php:146-148 | with distinct keys in the saved group, option `n` afterwards holds the value saved under the key `n` denotes, or its old value when none was saved |
| Remover.RevertMenus | better-block-editor/Modules/DemoContent/Remover.php:158-173 | a falsy saved group changes nothing; otherwise every saved location gets its saved menu, unsaved locations keep theirs, no other theme mod or option changes and the tracker key is removed |
| Remover.RevertSiteIdentity | better-block-editor/Modules/DemoContent/Remover.php:198-211 | a truthy saved logo or icon is written back and a falsy one leaves the current value; both tracker keys are removed in every case; nothing else changes |
| Remover.RevertSiteSettings | better-block-editor/Modules/DemoContent/Remover.php:61-66 | reverting settings touches only options and theme mods: posts, terms, meta, the demo id and every other demo's history are unchanged |
| Remover.RevertSiteSettingsClearsTracker | better-block-editor/Modules/DemoContent/Remover.php:61-210 | after the revert each of the settings, menu and widget groups is gone if it was truthy and kept if falsy, and the logo and icon keys are always gone |
| RemoveHandler.Slug | better-block-editor/Modules/DemoContent/AjaxHandlers/RemoveContentAjaxHandler.php:46 | a missing slug reads as ''; a posted one is reduced to the characters `sanitize_key` keeps |
| RemoveHandler.LatestInstalled | better-block-editor/Modules/DemoContent/AjaxHandlers/RemoveContentAjaxHandler.php:59-61 | none exactly for an empty history; a string last key is returned as is, while an integer last key reads as 0 because `array_reverse` renumbers it |
| RemoveHandler.Rollback | better-block-editor/Modules/DemoContent/AjaxHandlers/RemoveContentAjaxHandler.php:56-66 | with at most one demo in the history the site settings are always rolled back |
| RemoveHandler.RollbackIffLatest | better-block-editor/Modules/DemoContent/AjaxHandlers/RemoveContentAjaxHandler.php:57-66 | with several demos, settings roll back exactly when the demo is the last one in the history and its id is not a decimal integer (an integer key is never `===` the id string) |
| RemoveHandler.Remove | better-block-editor/Modules/DemoContent/AjaxHandlers/RemoveContentAjaxHandler.php:68-79 | when posts or attachments were tracked, exactly the untagged posts and terms survive, otherwise content is untouched; without rollback options and theme mods are untouched; the demo's history is dropped and every other demo's kept |
| RemoveHandler.Handle | better-block-editor/Modules/DemoContent/AjaxHandlers/RemoveContentAjaxHandler.php:36-90 | a failed permission check or an empty slug gives the matching error and changes nothing; otherwise the demo's history is gone, other demos' history is kept, settings are kept when no rollback is due, and the reply is the not-imported status |
| RemoveHandler.RemovalIsIdempotent | better-block-editor/Modules/DemoContent/AjaxHandlers/RemoveContentAjaxHandler.php:36-90 | repeating the same removal request leaves the site and the history as the first one left them |
| RemoveHandler.EmptyBucketRemovesNothing | better-block-editor/Modules/DemoContent/AjaxHandlers/RemoveContentAjaxHandler.php:68-79 | a demo with no history bucket is removed without any change to the site or the history |
| Tracker.New | better-block-editor/Modules/DemoContent/Trackers/TrackerBase.php:43-46 | the tracker is bound to the demo and holds the stored history, or an empty array when the option was never saved |
| Tracker.GetKey | better-block-editor/Modules/DemoContent/Trackers/ContentTracker.php:33-39 | false when the bucket's value is missing or PHP-empty, the stored value otherwise; the result is never a falsy value other than false |
| Tracker.Save | better-block-editor/Modules/DemoContent/Trackers/ContentTracker.php:143-145 | the history option holds the tracker's history afterwards and every other option is unchanged |
| Tracker.SetKey | better-block-editor/Modules/DemoContent/Trackers/ContentTracker.php:48-51 | the key holds the new value, every other key of the bucket and every other demo's bucket is unchanged, and the stored option matches the tracker |
| Tracker.AddKey | better-block-editor/Modules/DemoContent/Trackers/ContentTracker.php:60-65 | an `isset` key (non-null) leaves tracker and options untouched; otherwise it behaves exactly as `set` |
| Tracker.RemoveKey | better-block-editor/Modules/DemoContent/Trackers/ContentTracker.php:73-76 | the key reads null afterwards, every other key and every other demo's bucket is unchanged, and the stored option matches the tracker |
| Tracker.Forget | better-block-editor/Modules/DemoContent/Trackers/ContentTracker.php:131-134 | the current bucket reads null afterwards, a set bucket's key is gone from the history, and every other demo's bucket is unchanged |
| Tracker.RemoveDemo | better-block-editor/Modules/DemoContent/Trackers/ContentTracker.php:131-136 | the bucket is forgotten as above and the stored option matches the tracker; no other option changes |
| Tracker.TagMeta | better-block-editor/Modules/DemoContent/Trackers/ContentTracker.php:117-124 | the meta list keeps its entries in order and gains exactly one last entry tagging the object with the demo id |
| Tracker.KeepDemoContent | better-block-editor/Modules/DemoContent/Trackers/ContentTracker.php:102-107 | exactly the meta rows tagging an object with this demo are deleted, all other rows stay, and the demo's bucket is dropped from the history and the stored option |
| Tracker.DemoHistory | better-block-editor/Modules/DemoContent/Trackers/TrackerBase.php:54-62 | the stored bucket of the demo when the stored history has the key, an empty array when it does not |
| Tracker.AllDemoHistory | better-block-editor/Modules/DemoContent/Trackers/TrackerBase.php:69-71 | an empty array when the history was never saved |
| Tracker.GetAfterSet | better-block-editor/Modules/DemoContent/Trackers/ContentTracker.php:33-51 | reading a key right after setting it gives the new value when non-empty and false otherwise |
| Tracker.AddIsWriteOnce | better-block-editor/Modules/DemoContent/Trackers/ContentTracker.php:60-65 | once a non-null value is stored, a second `add` of the key changes nothing; the first `add` stores its value only if the key was not set |
| Tracker.AddNullDoesNotClaim | better-block-editor/Modules/DemoContent/Trackers/ContentTracker.php:60-65 | a first `add` of null does not claim the key: a later `add` stores its value |
| Tracker.PersistedBucketIsReadBack | better-block-editor/Modules/DemoContent/Trackers/TrackerBase.php:54-62 | after `set` the static reader returns the tracker's bucket; after `remove_demo` it returns nothing truthy, and an empty array unless a null bucket was stored |
| RoundTrip.SettingsRoundTrip | better-block-editor/Modules/DemoContent/Importers/WPSettingsImporter.php:64-89 | importing a static front page and then reverting the settings group gives every option back the value it had before the import (the reverse step is at Remover.php:140-151) |
| RoundTrip.SettingsRestoredAt | better-block-editor/Modules/DemoContent/Importers/WPSettingsImporter.php:165-168 | the captured settings have distinct keys, and writing them back over the applied settings gives each option its value from before |
| RoundTrip.MenusRoundTrip | better-block-editor/Modules/DemoContent/Importers/WPSettingsImporter.php:98-112 | after import and revert, a listed location that had a menu gets it back, a listed location that had none keeps the demo's menu, and unlisted locations never change (the reverse step is at Remover.php:158-173) |
| RoundTrip.WidgetsRoundTrip | better-block-editor/Modules/DemoContent/Importers/WPSettingsImporter.php:120-126 | after import and revert, every widget option the demo wrote has its original value again (false if it did not exist) and every other option is unchanged (the reverse step is at Remover.php:180-191) |
| RoundTrip.WidgetsReverted | better-block-editor/Modules/DemoContent/Remover.php:186-188 | writing the captured widget options back over the written ones restores each written option and leaves the rest |
| RoundTrip.WidgetsTracked | better-block-editor/Modules/DemoContent/Importers/WPSettingsImporter.php:120-217 | a first widget import leaves the captures in the tracker, truthy, and the written widgets in the options |
| RoundTrip.WidgetsCaptured | better-block-editor/Modules/DemoContent/Importers/WPSettingsImporter.php:178-181 | a first widget import captures exactly the original values of the widget options it writes |
| RoundTrip.WidgetRestoredAt | better-block-editor/Modules/DemoContent/Importers/WPSettingsImporter.php:178-181 | per option: the capture written back over the written widgets gives the original value, or false for an option that did not exist |
| RoundTrip.LogoRoundTrip | better-block-editor/Modules/DemoContent/Importers/WPSettingsImporter.php:135-141 | a logo the site had comes back after removal; with none, the demo's logo stays (the reverse step is at Remover.php:199-202) |
| RoundTrip.IconRoundTrip | better-block-editor/Modules/DemoContent/Importers/WPSettingsImporter.php:150-156 | a site icon the site had comes back after removal; with none, the demo's icon stays (the reverse step is at Remover.php:204-207) |
| SettingsImporter.NewImporter | better-block-editor/Modules/DemoContent/Importers/WPSettingsImporter.php:48-55 | a fresh importer has captured nothing: the settings and menu groups are empty and the widget group does not exist |
| SettingsImporter.UpdateWpSetting | better-block-editor/Modules/DemoContent/Importers/WPSettingsImporter.php:165-169 | the option's live value (false when missing) is captured under its name, other captures are unchanged, and the option takes the new value while every other option is unchanged |
| SettingsImporter.SaveInTracker | better-block-editor/Modules/DemoContent/Importers/WPSettingsImporter.php:214-218 | a group that was never created changes nothing; an existing group, even empty, goes through the tracker's write-once `add` |
| SettingsImporter.Field | better-block-editor/Modules/DemoContent/Importers/WPSettingsImporter.php:65-72 | a setting missing from the demo reads as false; a present one is the demo's value |
| SettingsImporter.ImportFrontPage | better-block-editor/Modules/DemoContent/Importers/WPSettingsImporter.php:75-79 | unless the mapped front page is a page nothing changes; otherwise `show_on_front` becomes 'page' and `page_on_front` the page, both originals are captured and no other option changes |
| SettingsImporter.ImportPostsPage | better-block-editor/Modules/DemoContent/Importers/WPSettingsImporter.php:81-86 | unless the mapped posts page is a page nothing changes; otherwise `page_for_posts` becomes it, its original is captured and no other option changes |
| SettingsImporter.ApplySettings | better-block-editor/Modules/DemoContent/Importers/WPSettingsImporter.php:74-87 | the two front page options switch together only to an imported page, the posts page switches only to an imported page, and every other option is unchanged |
| SettingsImporter.ApplySettingsCaptures | better-block-editor/Modules/DemoContent/Importers/WPSettingsImporter.php:75-166 | each of the three options is captured with its value from before exactly when it is written, and no other capture changes |
| SettingsImporter.ImportSettings | better-block-editor/Modules/DemoContent/Importers/WPSettingsImporter.php:64-90 | nothing happens unless the demo shows a page on the front; then the settings are applied and, on a first import, the tracker records the captured group |
| SettingsImporter.MenuOf | better-block-editor/Modules/DemoContent/Importers/WPSettingsImporter.php:106-199 | always an integer; a non-zero menu id only for a demo menu given as an integer key |
| SettingsImporter.AssignLocations | better-block-editor/Modules/DemoContent/Importers/WPSettingsImporter.php:101-107 | every listed location points at its imported menu and unlisted ones keep theirs; a location is captured only when it held a menu before the loop |
| SettingsImporter.AssignLocationsValid | better-block-editor/Modules/DemoContent/Importers/WPSettingsImporter.php:101-107 | the captured locations never repeat a key |
| SettingsImporter.ImportMenuLocations | better-block-editor/Modules/DemoContent/Importers/WPSettingsImporter.php:98-112 | listed locations point at the imported menus, others keep theirs, only already-assigned locations are captured, a first import records the capture in the tracker, and no other theme mod or option changes |
| SettingsImporter.RemapMenu | better-block-editor/Modules/DemoContent/Importers/WPSettingsImporter.php:197-201 | a set `menu` setting is pointed at the imported menu and nothing else in the instance changes; an instance without one is untouched |
| SettingsImporter.FilterWidgetSettings | better-block-editor/Modules/DemoContent/Importers/WPSettingsImporter.php:191-206 | only the two menu widgets, matched strictly by string id, are changed, keeping their keys and remapping each instance's menu; every other widget is returned unchanged |
| SettingsImporter.WritesFind | better-block-editor/Modules/DemoContent/Importers/WPSettingsImporter.php:121-123 | with normalised widget keys, replaying the writes gives option `n` the value stored under the key `n` denotes |
| SettingsImporter.WriteWidgets | better-block-editor/Modules/DemoContent/Importers/WPSettingsImporter.php:121-181 | every listed widget option holds its filtered settings and every other option is unchanged |
| SettingsImporter.CaptureWidgets | better-block-editor/Modules/DemoContent/Importers/WPSettingsImporter.php:178-179 | every listed widget is captured with its option's value from before the import (false when missing) and other captures are unchanged |
| SettingsImporter.ImportWidgets | better-block-editor/Modules/DemoContent/Importers/WPSettingsImporter.php:120-126 | an empty list only offers an existing group to the tracker; otherwise the options take the filtered widgets, the originals are captured, and a first import records them in the tracker |
| SettingsImporter.ImportCustomLogo | better-block-editor/Modules/DemoContent/Importers/WPSettingsImporter.php:135-141 | the new logo is always written; a truthy original is recorded on a first import and otherwise the tracker is untouched; no other theme mod changes |
| SettingsImporter.ImportSiteIcon | better-block-editor/Modules/DemoContent/Importers/WPSettingsImporter.php:150-156 | the new icon is always written; a truthy original is recorded on a first import and otherwise the tracker is untouched; no other option changes |
| SettingsImporter.SecondImportKeepsFirstOriginals | better-block-editor/Modules/DemoContent/Importers/WPSettingsImporter.php:214-217 | a second import of the same demo does not replace the originals the first import recorded |
| Settings.ModuleOptionName | better-block-editor/Core/Settings.php:368-370 | the plugin's module prefix followed by exactly the module id, which can be read back from the name |
| Settings.EnabledOptionName | better-block-editor/Core/Settings.php:358-360 | the module's base name followed by `__enabled` |
| Settings.SettingsOptionName | better-block-editor/Core/Settings.php:387-389 | the module's base name followed by `__settings` |
| Settings.OptionNamesDistinct | better-block-editor/Core/Settings.php:358-389 | distinct modules never share an on/off option or a settings option, and no on/off option is a settings option |
| Settings.BreakpointsOptionApart | better-block-editor/Core/Settings.php:377-379 | the user breakpoints option is neither the base, the on/off nor the settings option of any module |
| Settings.OtherSwitchesIgnored | better-block-editor/Core/Settings.php:125-127 | turning one module's switch on or off leaves what every other module reads as its state unchanged |
| Settings.SanitizeEnabled | better-block-editor/Core/Settings.php:276-278 | the stored switch is always '1' or '0', and it is on exactly when '1' or true (strictly) was submitted |
| Settings.EnabledRoundTrip | better-block-editor/Core/Settings.php:276-278 | saving the checkbox and reading the switch back gives on exactly for '1' or true, a value the sanitiser keeps as is |
| Settings.KindOf | better-block-editor/Core/Settings.php:414-437 | a missing type is text; 'checkbox' and 'multicheckbox' select their cases; any other string type is text |
| Settings.MarkOptions | better-block-editor/Core/Settings.php:417-424 | each available option is 1 when submitted non-empty and removed otherwise; entries that are not available options keep their values |
| Settings.SanitizeModuleSetting | better-block-editor/Core/Settings.php:410-440 | the result is an array in which only the setting's own key changes: a checkbox becomes 1 or 0 by emptiness, text goes through `sanitize_text_field` ('' when missing), and a multicheckbox marks its available options as above |
| Settings.CheckboxIdempotent | better-block-editor/Core/Settings.php:426-428 | sanitising a saved checkbox setting again changes nothing |
| Settings.MultiCheckboxIdempotent | better-block-editor/Core/Settings.php:415-425 | sanitising a saved multicheckbox setting again changes none of the options it records |
| Settings.MarkedStable | better-block-editor/Core/Settings.php:417-424 | marking options that are already marked leaves every option as it is |
| TextStyleFromElement.Classes | better-block-editor/Modules/TextStyleFromElement/Module.php:131-138 | always the prefixed element class first; the core heading class is added exactly when the choice is one of the strings h1-h6 |
| TextStyleFromElement.Render | better-block-editor/Modules/TextStyleFromElement/Module.php:118-143 | other blocks and empty content are untouched; `role="heading"` is set exactly when the switch is strictly true; classes are appended exactly when an element was chosen |
| TextStyleFromElement.OtherBlocksUntouched | better-block-editor/Modules/TextStyleFromElement/Module.php:119-121 | a block that is not one of the four text blocks is never changed |
| TextStyleFromElement.HeadingAddsCoreClass | better-block-editor/Modules/TextStyleFromElement/Module.php:133-136 | borrowing the style of h2 adds the h2 class and the core heading class |
| TextStyleFromElement.AllHeadingsOnlyOwnClass | better-block-editor/Modules/TextStyleFromElement/Module.php:30-136 | the "all headings" choice is not a heading tag, so only its own class is added |
| TextStyleFromElement.RoleIsStrict | better-block-editor/Modules/TextStyleFromElement/Module.php:123-125 | a truthy non-boolean role switch such as 1 sets no role |
| TextStyleFromElement.TextStyleToBorrow | better-block-editor/Modules/TextStyleFromElement/Module.php:159-167 | at most the typography entry, present exactly when the section's typography is non-empty |
| TextStyleFromElement.BorrowIdempotent | better-block-editor/Modules/TextStyleFromElement/Module.php:159-167 | borrowing from what was borrowed gives the same styles again |
| Visibility.DefaultsFound | better-block-editor/Modules/Visibility/Module.php:118-122 | each of the three settings defaults to the empty string |
| Visibility.GetAtts | better-block-editor/Modules/Visibility/Module.php:115-124 | a setting the block gives keeps the block's value, even null; a missing one reads as '' |
| Visibility.CustomClasses | better-block-editor/Modules/Visibility/Module.php:94-113 | no classes exactly for a block that is not strictly hidden and has no breakpoint; otherwise the unique class, the visibility class ('visible' for an empty visibility), and the breakpoint class exactly when a breakpoint is given |
| Visibility.DeclarationSpec | better-block-editor/Modules/Visibility/Module.php:135-143 | below the width a hidden block is displayed as flex and any other marked block is not displayed, under a selector naming the matching class |
| Visibility.Styles | better-block-editor/Modules/Visibility/Module.php:126-154 | one media query below the switch width, holding the visibility declaration, exactly when that width is truthy; nothing otherwise |
| Visibility.Render | better-block-editor/Modules/Visibility/Module.php:72-87 | blocks without the visibility group, or with empty content, are untouched; otherwise the custom classes and styles of the parsed settings are added |
| Visibility.EmptyGroupUntouched | better-block-editor/Modules/Visibility/Module.php:103-134 | an empty settings group marks nothing and adds no rule on a site with no breakpoint named '' |
| Visibility.HiddenEverywhere | better-block-editor/Modules/Visibility/Module.php:102-134 | a block hidden without a breakpoint is marked hidden and gets no rule: it is hidden at every width |
| Visibility.BreakpointClassIff | better-block-editor/Modules/Visibility/Module.php:107-109 | the breakpoint class is present exactly when a breakpoint is given |
| UploadSVG.HandleSvgFile | better-block-editor/Modules/UploadSVG/Module.php:58-87 | a file without a temporary name or not typed as SVG passes unchanged, as does an SVG the user may upload and the sanitiser cleans; otherwise only the error entry is set, to the rights message or the sanitising message |
| UploadSVG.HandleSvgFileRefusal | better-block-editor/Modules/UploadSVG/Module.php:58-87 | an SVG upload carries one of the two refusal messages exactly when the user lacks the right or the sanitiser fails (or it already carried one), and running the filter again adds nothing |
| UploadSVG.IsGzippedStartsWith | better-block-editor/Modules/UploadSVG/Module.php:213-221 | contents count as gzipped exactly when they start with the three gzip header bytes |
| UploadSVG.SubstrCompareZero | better-block-editor/Modules/UploadSVG/Module.php:485 | the comparison throws exactly when the length is non-zero and the offset lies past the end of the string |
| UploadSVG.StrEndsWithAgrees | better-block-editor/Modules/UploadSVG/Module.php:478-486 | the module's own `str_ends_with` agrees with the plain suffix test on every input, including needles longer than the haystack |
| UploadSVG.ImageTagOverride | better-block-editor/Modules/UploadSVG/Module.php:245-268 | non-SVG images are untouched, and an SVG tag with no placeholder size and no `/>` is untouched too |
| UploadSVG.DetectedExt | better-block-editor/Modules/UploadSVG/Module.php:283-287 | the extension WordPress found when it has at least one character; otherwise a dot-free text taken from the file name |
| UploadSVG.FixMimeTypeSvg | better-block-editor/Modules/UploadSVG/Module.php:282-297 | an `svg` or `svgz` extension, compared strictly, sets the SVG type and that extension; any other result is returned unchanged, and no other entry ever changes |
| UploadSVG.FixMimeTypeSvgIdempotent | better-block-editor/Modules/UploadSVG/Module.php:282-297 | fixing an already fixed result changes nothing |
| UploadSVG.UpperCaseNameIsSvg | better-block-editor/Modules/UploadSVG/Module.php:285-290 | without an extension from WordPress, a file name whose last part reads svg in any letter case is typed as SVG |
| UploadSVG.FoundExtWins | better-block-editor/Modules/UploadSVG/Module.php:283-288 | an extension WordPress already found (png) wins over the file name |
| UploadSVG.AllowSvgUploads | better-block-editor/Modules/UploadSVG/Module.php:321-332 | with the DOM extension and a user who may upload, both SVG extensions map to the SVG type; otherwise the list is unchanged; no other extension ever changes |
| UploadSVG.AllowSvgUploadsIdempotent | better-block-editor/Modules/UploadSVG/Module.php:321-332 | allowing twice is the same as allowing once |
| UploadSVG.DisableSrcset | better-block-editor/Modules/UploadSVG/Module.php:313-319 | the meta of an SVG attachment (non-zero id, array meta) loses its sizes; any other meta is unchanged; no other entry changes |
| UploadSVG.DisableSrcsetIdempotent | better-block-editor/Modules/UploadSVG/Module.php:313-319 | clearing the sizes twice is the same as clearing them once |
| StyleEngine.LineEnd | better-block-editor/Modules/StyleEngine/Module.php:44 | the first line break at or after the position, or the end: the stretch `.` can match without the `s` modifier |
| StyleEngine.LastBar | better-block-editor/Modules/StyleEngine/Module.php:44 | the last bar followed by a slug character within the range, found by giving characters back from the right as the greedy `(.+)` does; none exactly when no such bar exists |
| StyleEngine.SlugEnd | better-block-editor/Modules/StyleEngine/Module.php:44 | the end of the longest run of slug characters `[a-z0-9-]` from the position |
| StyleEngine.Match | better-block-editor/Modules/StyleEngine/Module.php:44 | a match at the start of the text reads back as the marker, the preset type, a bar and the slug |
| StyleEngine.RewriteWithoutMarker | better-block-editor/Modules/StyleEngine/Module.php:44 | a value without `var:preset|` is returned as it is |
| StyleEngine.PresetReference | better-block-editor/Modules/StyleEngine/Module.php:44 | `var:preset|T|S`, for a type without line breaks and a slug of slug characters, becomes `var(--wp--preset--T--S)`; a type may itself contain bars |
| StyleEngine.RewriteWholeMatch | better-block-editor/Modules/StyleEngine/Module.php:44 | text matched to its end is replaced as a whole by the preset's custom property |
| StyleEngine.MatchReference | better-block-editor/Modules/StyleEngine/Module.php:44 | the match of a whole preset reference spans the entire text and yields its type and slug |
| StyleEngine.ReferenceBar | better-block-editor/Modules/StyleEngine/Module.php:44 | in a whole preset reference, the bar after the type is the last bar before a slug character, and the slug runs to the end |
| StyleEngine.PresetReferenceSlug | better-block-editor/Modules/StyleEngine/Module.php:44 | the slug reads back from the rewritten custom property |
| StyleEngine.ReplaceValue | better-block-editor/Modules/StyleEngine/Module.php:44 | a non-array value is rewritten as text; an array keeps its keys, with each element rewritten |
| StyleEngine.PreprocessRule | better-block-editor/Modules/StyleEngine/Module.php:33-50 | the selector is copied, declaration keys are kept in order, and the declarations entry exists exactly when the rule had a non-empty array of declarations |
| StyleEngine.PreprocessCssRules | better-block-editor/Modules/StyleEngine/Module.php:30-54 | one preprocessed rule per rule, renumbered from 0, each keeping its selector and declaration keys |
| StyleEngine.PlainRuleUnchanged | better-block-editor/Modules/StyleEngine/Module.php:30-54 | preprocessing leaves a rule whose declarations are plain strings without preset references exactly as it was |
| StyleEngine.PlainDeclsUnchanged | better-block-editor/Modules/StyleEngine/Module.php:38-48 | the declaration loop leaves plain string declarations without preset references unchanged |
| StyleEngine.Renderables | better-block-editor/Modules/StyleEngine/Module.php:184-194 | the kept rules are exactly the rules with a non-empty selector and a non-empty declarations array |
| StyleEngine.RenderablesAll | better-block-editor/Modules/StyleEngine/Module.php:184-188 | no rule is skipped exactly when every rule has a selector and declarations |
| StyleEngine.RenderablesKeepAll | better-block-editor/Modules/StyleEngine/Module.php:184-194 | when every rule is renderable the loop keeps them all, in order |
| StyleEngine.StoreAll | better-block-editor/Modules/StyleEngine/Module.php:189-191 | one stored entry per kept rule, in order, with the context, selector and declarations |
| StyleEngine.GetStylesheetFromCssRules | better-block-editor/Modules/StyleEngine/Module.php:171-201 | an empty collection gives '' and stores nothing; only kept rules are stored, and only under a non-empty context; with no kept rule the stylesheet is '', otherwise the compiled kept rules |
| StyleEngine.StylesheetOrigins | better-block-editor/Modules/StyleEngine/Module.php:171-201 | every stored rule comes from a renderable rule of the collection, one per renderable rule, under the given context |
| StyleEngine.SingleRuleStored | better-block-editor/Modules/StyleEngine/Module.php:171-194 | a preprocessed collection of one rule with a selector and declarations is stored as that one rule |

## Left out

- WordPress and PHP calls (options, transients, posts, terms, meta, `wp_insert_*`, `post_exists`, `get_post_type`, capabilities, `function_exists`) are modelled as state maps or as parameters. Their own behaviour is not modelled.
- The parent WXR importer library (`wordpress-importer.php`) is not part of this model. Its parsing, term and comment import, and backfills are outside the core.
- `DownloadTimePredictor` is not part of this model. Its prediction is a parameter; only the "fewer than three samples gives no prediction" gate is modelled (`ImportFiles.Predict`).
- Network and file I/O (remote fetches, unzip, JSON file reads, font and SVG file contents) are parameters. `ImportFiles.FetchRemoteFile` receives the response headers and the downloaded size.
- HTML rewriting through `WP_HTML_Tag_Processor` is modelled as a recorded list of effects: classes added, inline styles, attributes and stored CSS rules (`Css.Effect`). The HTML text itself is not modelled.
- Float-to-string conversion is exact for integral values and keeps up to 14 fractional digits otherwise. PHP's 14-significant-digit rounding of large or very small floats is not modelled.
- `Php.NumericString` compares numeric strings with exact integers. PHP compares them as floats when they exceed the integer range; that precision loss is not modelled.
- `Breakpoints.RejectsFields` measures a name with `Text.Utf8Length`, as PHP's `strlen` counts UTF-8 bytes. A submitted name that is an array is cast to the string `Array`, as PHP 8 does; the "Array to string conversion" warning PHP raises on the way is not modelled.
- `Wp.ParseArgs` writes every entry of the arguments over the defaults by key. `wp_parse_args` uses `array_merge`, which appends integer-keyed entries with new keys instead of overwriting; every caller passes string-keyed arguments, where the two agree.
- `Wp.MaybeUnserialize` follows WordPress's strict `is_serialized` test; PHP's `unserialize` itself is a parameter of the import host (`ImportSession.Host`), so the parsing of serialised text is not modelled.
- `Text.ToLower` folds ASCII letters only, so locale-dependent case folding of other characters is not modelled.
- `UploadSVG.IsGzippedStartsWith` models the `strpos` branch of `is_gzipped`. The `mb_strpos` branch gives the same answer on the three-byte header and is not modelled separately.
- `UploadSVG.ImageTagOverride`: the contract states the unchanged cases only. For a rewritten tag it does not state that a missing width or height is filled in from `svg_dimensions` (or removed when the dimensions are unknown), nor that `role="img"` is added.
- The SVG sanitiser and `svg_dimensions` are parameters of `UploadSVG.HandleSvgFile`.
- `ImportMenus.MenuUrlAsWritten` models only the `.` metacharacter of the unescaped base URL. Other regular-expression metacharacters and `$n` back-references in the home URL are not modelled.
- `ImportFiles.FetchRemoteFile` does not model the `wpbbe_importer_fetch_remote_file` filter's early return. It compares `x-final-location` strictly.
- `ImportPosts.ProcessPost` leaves out terms, comments, sticky posts, `processed_post_names` and the post-data filters. Attachments are inserted through an abstract step.
- `download_image_resizes` internals (the per-size downloads) are abstract; only the decision to take the remote-resize path is modelled.
- `ImportBatch.CacheOf` leaves out `base_url` and `processed_post_names`, which no modelled step reads back.
- `record_image_processing_stat` is documented as keeping "the last 3" samples, but its code appends without trimming. The model follows the code, so the sample list is unbounded.
- `TextStyleFromElement`: `set_text_styling_classes` reads the merged theme JSON and hands the borrowed typography to the core style engine, so it is not modelled; `get_text_style_to_borrow`, which it uses, is (`TextStyleFromElement.TextStyleToBorrow`).
- `Demo::import_allowed` always returns true, so it is not modelled.
- `DemoInfo.IsSetField`: the `isset` fallback treats the four declared properties as set, since none of them holds null in the model.
- `ModulesManager`: the display fields of each module's data (title, label, description) come from the module classes and are carried as opaque data.
- `DesignSystemCore`: `add_script_data`, the REST route and the `admin_init` reset are registration glue and are not modelled.
- `DesignSystemParts`: `modify_theme_json_values` edits the theme JSON through WordPress classes and is not modelled.
- `ModulesManager` takes the class list as a parameter. The `glob` discovery of module files is not modelled.
- `FontDownloader`: `fetch_existing_fonts` and the upload handlers do I/O and are not modelled.
- `StyleEngine`: `get_styles` (Modules/StyleEngine/Module.php:100) wraps WordPress's core style engine and is not modelled.
- `RemoveHandler.Handle` returns the outcome. The notice transient and `wp_send_json` output are not modelled.
- AJAX and REST glue, asset registration, logging, output buffering and overlapping imports are not modelled.

## Findings

| source | as written | input that shows it | evidently intended | confidence | as-written member | corrected member |
|---|---|---|---|---|---|---|
| better-block-editor/Modules/DemoContent/Demo/Demo.php:67-72 | `refresh_import_status` sets both imported flags to false and then computes the status from them, so the status is never `full_import` | a demo whose history bucket has both post types and attachments recorded | the flags reflect the demo's history, so a fully imported demo reports `full_import` | not executed | DemoInfo.RefreshNeverFull | DemoInfo.NewIntended |
| better-block-editor/Core/BlockUtils.php:342 | `$result[$key] = $value` after the switch overwrites the patched border with the raw value | a `border` setting whose colour is a preset slug such as `var:preset\|color\|accent` | the border case's patched value is the one kept | not executed | BlockUtils.BorderEntryDiscrepancy | BlockUtils.StepBorder |
| better-block-editor/Modules/RowResponsive/Module.php:123 | `$attributes` is undefined inside `add_styles`, so the layout orientation is always `horizontal` | a group with layout orientation `vertical` and responsive orientation `column` | the block's own `layout.orientation` is read | not executed | RowResponsive.VerticalStackDiscrepancy | RowResponsive.IntendedTurns |
| better-block-editor/Modules/ButtonHoverColors/Module.php:41 | `$settings[ $name ] ?? '' !== ''` parses as `$settings[ $name ] ?? ('' !== '')`, that is `?? false`, so a colour is acted on only when truthy | a text hover colour of `"0"` | every set, non-empty colour is acted on | not executed | ButtonHoverColors.FalsyColourDiscrepancy | ButtonHoverColors.IntendedActs |
| better-block-editor/Modules/FlexItemPreventShrinking/Module.php:37-38 | `$block['parentLayout']['type'] ?? null !== 'flex'` parses as `?? (null !== 'flex')`, that is `?? true`, so any truthy layout type, or none, counts as flex | a block with the switch on inside a `grid` parent | only a `flex` parent layout counts | not executed | FlexItemPreventShrinking.GridParentDiscrepancy | FlexItemPreventShrinking.IntendedMarks |
| better-block-editor/Modules/DemoContent/Importers/ContentImporter.php:367 | the base URL is put into the regular expression unescaped, so each of its dots matches any character | base URL `http://a.b` and menu URL `http://axb/page` | only URLs that literally start with the base URL are rewritten | not executed | ImportMenus.WildcardDotDiscrepancy | ImportMenus.MenuUrl |
