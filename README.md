# Robot description pipeline — verified model

This project models the deterministic core of a system that turns a natural
language robot description into a simulatable robot file. The core covers:

- **Converters** (`src/convert.py`). `urdf_to_mjcf` turns a parsed URDF robot
  into a MuJoCo document. Each link reachable from the root becomes a `body`
  nested under its parent's body, each joint becomes a hinge or slide plus a
  motor, and visuals and collisions become `geom`s. `urdf_to_sdf` turns the
  same input into an SDF 1.7 model with links, visuals, collisions, inertials
  and joints. Both rely on the shared helpers `_parse_urdf`,
  `_convert_geometry`, `_origin_to_pos_euler` and `_convert_geom_to_sdf`.
- **Validators** (`src/validate.py`). The chassis-size estimate, the
  link-offset check, the text-level effort check and `validate_all`.
- **Extraction** of an XML document from a language-model reply
  (`src/generate.py` and the same search in `generate_mjcf` / `generate_sdf`).
- **Scoring** (`src/score.py`). The component scores, the terrain
  multiplier, the composite score and its label.
- **Simulation rules** (`src/simulate.py`). The feedback suggestions, the
  de-duplication of self-collision pairs, the terrain dispatch and the
  motor-target formula.
- **Agent rules** (`src/agent.py`). Multi-leg request detection and the
  leg prompt.
- **Retrieval** (`src/rag.py`). The tokenizer, term frequencies, document
  frequencies, TF-IDF vectors, cosine similarity, ranking and the
  `RAGIndex` object, which loads lazily and builds the context.

The parsed URDF is an `Xml.Node` tree: tag, attribute map and children.
An output document is an `Xml.Tree` whose attribute values and texts are
`Pieces.Text`: literal strings interleaved with numbers, because Python's
`str(float)` formatting is not modelled. Code that works by mutation is
written as methods with loops, each proved equal to a specification
function:

- the `links` dict and the joint tables;
- `_convert_geometry`'s attribute overwrites;
- `_build_body`'s shared actuator list;
- the SDF link and joint loops;
- `_idf`'s counter;
- the suggestion list;
- the `seen` set;
- `RAGIndex`'s fields.

The properties are then proved about those functions.

Python semantics kept explicit:

- dicts iterate in insertion order, and the last write wins;
- `None` is a valid dict key, for a link or joint without a name;
- `ET.tostring` raises `TypeError` on a `None` attribute value;
- `find("parent").get(...)` raises `AttributeError` when the element is missing;
- `list(links)[0]` raises `IndexError` when there are no links;
- a joint cycle exhausts the recursion limit, which is modelled as a `depth`/`fuel` bound.

## Model

| member | source | states |
|---|---|---|
| ConvertHelpers.StripLeadingJunk | src/convert.py:35-40 | with a case-sensitive `<?xml` in the input, the result is the suffix starting at its first occurrence; otherwise the input itself |
| ConvertHelpers.StripLeadingJunkIdempotent | src/convert.py:38-39 | stripping twice is stripping once |
| ConvertHelpers.Halves | src/convert.py:55 | succeeds iff every component parses as a float, and then each result doubled is the parsed component |
| ConvertHelpers.ConvertGeometry | src/convert.py:46-73 | the attribute loop yields a `geom` element with the attributes of the fold over the children, or `ValueError` when a number does not parse |
| ConvertHelpers.GeomFoldError | src/convert.py:55 | the only failure of the geometry fold is `ValueError` |
| ConvertHelpers.LastShape | src/convert.py:50-71 | the index of the last child with a recognised shape tag, or none if there is none |
| ConvertHelpers.LastShapeWins | src/convert.py:50-71 | the `type` attribute is that of the last recognised shape child; with none it is absent |
| ConvertHelpers.ShapeSetsType | src/convert.py:51-71 | a recognised child sets `type` to its shape name; an unrecognised one leaves the attributes unchanged |
| ConvertHelpers.BoxHalved | src/convert.py:52-57 | a box gets type `box` and a size whose numbers are the URDF components halved (default `0.1 0.1 0.1`) |
| ConvertHelpers.DefaultBoxWords | src/convert.py:53 | the default box size splits into three equal components |
| ConvertHelpers.CylinderRadiusThenHalfLength | src/convert.py:58-63 | a cylinder's size is the radius text unchanged, a space, then half the parsed length |
| ConvertHelpers.SphereAndMeshKept | src/convert.py:64-71 | a sphere's size is its radius text; a mesh sets `mesh` to the filename and keeps any earlier `size` |
| ConvertHelpers.SdfShape | src/convert.py:395-412 | an SDF shape element exists exactly for a recognised shape tag |
| ConvertHelpers.ConvertGeomToSdf | src/convert.py:393-412 | the SDF geometry gains one shape element per recognised URDF child, in order |
| UrdfTables.Names | src/convert.py:103-104 | the `name` attribute of each element, in document order |
| UrdfTables.BuildLinks | src/convert.py:102-104 | the `links` loop yields exactly the link table fold |
| UrdfTables.LinksKeyed | src/convert.py:102-104 | the link table's keys are exactly the link names, with insertion order recorded |
| UrdfTables.LastLinkWins | src/convert.py:104 | a link name maps to the last link element with that name |
| UrdfTables.KeptUnlessRenamed | src/convert.py:104 | an entry is replaced only by a later link with the same name |
| UrdfTables.FirstOutside | src/convert.py:119 | the first name not in the set, or none when all of them are in it |
| UrdfTables.RootSelection | src/convert.py:117-120 | the root is the first link in document order that is no joint's child; else the first link; no links is `IndexError` |
| UrdfTables.JointEndsSpec | src/convert.py:112-113 | a joint's ends are read iff it has both a `parent` and a `child` element; otherwise `AttributeError` |
| UrdfTables.BuildJoints | src/convert.py:106-115 | the joint loop yields exactly the joint-table fold |
| UrdfTables.FailedPrefix | src/convert.py:110-115 | once a joint lacks its ends, the whole conversion fails with `AttributeError` |
| UrdfTables.AllEndsOk | src/convert.py:110-115 | all ends are read iff every joint has both ends |
| UrdfTables.JointTablesSpec | src/convert.py:110-115 | the tables exist iff all ends are read; `children_of[p]` lists the children of `p` in joint order; the parent map's keys are exactly the children |
| UrdfTables.ChildKeys | src/convert.py:114-118 | a name is in `parent_child_map` iff some joint names it as child |
| UrdfTables.LastJointWins | src/convert.py:114 | a child maps to the last joint naming it, with that joint's parent |
| Mjcf.EmitGeom | src/convert.py:206-236 | one visual or collision element gives the geom the specification function describes |
| Mjcf.EmitGeoms | src/convert.py:206-236 | the visual or collision loop gives the geoms of all the link's elements, in order |
| Mjcf.BodyBuilder.BuildBody | src/convert.py:143-240 | the recursive builder returns the bodies of `Body` and appends exactly its motors to the shared actuator list; its errors are `Body`'s |
| Mjcf.BodyBuilder.BuildLinkBody | src/convert.py:149-240 | on a link the robot has, the builder returns `Body`'s bodies and appends exactly its motors, or fails with `Body`'s error |
| Mjcf.BuildOwn | src/convert.py:193-236 | the inertial element followed by the visual and then the collision geoms, or the first geometry error |
| Mjcf.BodyBuilder.BuildChildren | src/convert.py:239-240 | building the children in joint order returns `Bodies` and appends its motors |
| Mjcf.BodiesCons | src/convert.py:239-240 | the children are built first child first, and a child's failure stops the rest |
| Mjcf.BuildMujoco | src/convert.py:98-243 | the imperative construction equals the `Mujoco` specification document |
| Mjcf.UrdfToMjcf | src/convert.py:88-245 | parse, clean up and convert, with the parse outcome as a parameter |
| Mjcf.HingeMapping | src/convert.py:164-176 | `revolute`/`continuous` give one hinge and one motor on the same joint name; `axis` iff the URDF has an axis; `range` iff there is a limit and the type is exactly `revolute` |
| Mjcf.HingeMotorRange | src/convert.py:177-180 | a hinge's motor has `ctrllimited="true"` and `ctrlrange="-e e"` iff there is a limit (effort default `100`) |
| Mjcf.SlideMapping | src/convert.py:182-193 | `prismatic` gives one slide and one motor; `range` iff there is a limit (defaults `0`/`1`); the motor has no control range |
| Mjcf.OtherJointsVanish | src/convert.py:194 | every other joint type emits neither a joint element nor a motor |
| Mjcf.BodyPose | src/convert.py:151-158 | a link that is no joint's child gets no pose; a joint's child gets `pos`, the origin `xyz` as `ConvertHelpers.OriginToPosEuler` reads it (default `0 0 0`), and `euler` iff the `rpy` differs from `"0 0 0"`; when every link is a child, the fallback root gets its pose as well |
| Mjcf.Reach | src/convert.py:238-240 | the links met depth-first from a name, pre-order, in joint order, skipping missing links; every one is a known link |
| Mjcf.ReachAll | src/convert.py:239-240 | the same walk over a list of children; every name met is a known link |
| Mjcf.BodyNamesAppend | src/convert.py:149 | body names of concatenated trees concatenate |
| Mjcf.GeomsAreLeaves | src/convert.py:206-236 | geoms contain no nested bodies |
| Mjcf.BodyOk | src/convert.py:143-240 | a successful body is one `body` holding its joint, inertial, visuals, collisions and then its children's bodies |
| Mjcf.BodyPreorder | src/convert.py:143-240 | the body names in the built tree, read in pre-order, are exactly the reachable links in depth-first joint order |
| Mjcf.BodiesPreorder | src/convert.py:238-240 | the same for the list of children |
| Mjcf.MujocoNesting | src/convert.py:132-243 | the worldbody holds the floor, the light, then the root's body tree, whose body names are the links reachable from the root |
| Mjcf.NoLinks | src/convert.py:119-120 | a robot without links fails with `IndexError` |
| Mjcf.BodiesFailAt | src/convert.py:239-240 | a failing child makes the whole list fail |
| Mjcf.SelfLoopNeverBuilt | src/convert.py:238-240 | a link that is its own child never finishes: recursion exhausts any depth |
| Sdf.InertiaLeaves | src/convert.py:286-287 | one element per inertia key, in order, with the attribute's value or `0.001` |
| Sdf.EmitInertia | src/convert.py:283-287 | the loop builds the `inertia` element with the six keys |
| Sdf.EmitParts | src/convert.py:297-336 | the visual or collision loop gives the parts, in order, indexed |
| Sdf.EmitLink | src/convert.py:270-336 | one link iteration builds the SDF `link` the specification describes |
| Sdf.EmitJoints | src/convert.py:339-388 | the joint loop gives the joint elements, or the first error |
| Sdf.CollectFailedPrefix | src/convert.py:339-359 | after the first failing joint, the result is that failure |
| Sdf.CollectSpec | src/convert.py:339-388 | the joints all convert iff each converts; the values are the per-joint trees; a failure is some joint's failure |
| Sdf.BuildSdf | src/convert.py:260-390 | the imperative construction equals the SDF specification document |
| Sdf.UrdfToSdf | src/convert.py:251-390 | parse, clean up and convert, with the parse outcome as a parameter |
| Sdf.TypeMapping | src/convert.py:344-352 | `fixed` iff fixed; `ball` iff floating; `prismatic` iff prismatic or planar; `revolute` for every other type, unknown ones included |
| Sdf.AxisShape | src/convert.py:369-376 | an `axis` is emitted iff the mapped type is not fixed; its `xyz` defaults to `0 0 1`; a `limit` follows it iff the URDF has one |
| Sdf.Tags | src/convert.py:383-388 | the tags of a list of elements, in order |
| Sdf.LimitShape | src/convert.py:379-388 | a continuous joint's limit holds effort and velocity only; the others hold lower, upper, effort and velocity, with defaults `-3.14`, `3.14`, `100` and `1.0` |
| Sdf.ContinuousUnbounded | src/convert.py:382 | a continuous joint never gets `lower` or `upper` |
| Sdf.JointTreesSpec | src/convert.py:339-388 | the joints convert iff every joint has both ends; each tree is its joint's; otherwise `AttributeError` |
| Sdf.PartNamesDistinct | src/convert.py:297-298 | the names `{link}_{kind}_{i}` that `Sdf.Enumerate` gives one link's parts differ for different indices |
| Sdf.SphereCopied | src/convert.py:404-406 | SDF copies the sphere radius text; MJCF does too |
| Sdf.CylinderCopied | src/convert.py:400-403 | SDF copies radius and length; MJCF keeps the radius and halves the length |
| Sdf.BoxCopied | src/convert.py:397-399 | SDF copies the box size text, defaulting to `0.1 0.1 0.1` |
| Sdf.LinkSerializable | src/convert.py:270-272 | a link can be written out iff it has a name |
| Sdf.JointSerializable | src/convert.py:339-354 | a joint can be written out iff it has a name |
| Sdf.LinksSerializable | src/convert.py:270-272 | all links can be written out iff all of them have names |
| Sdf.JointsSerializable | src/convert.py:339-354 | all joints can be written out iff all of them have names |
| Sdf.DocumentSerializable | src/convert.py:263-390 | `Xml.Serialize` (`ET.tostring`) writes the document out iff every link and joint has a name |
| Sdf.SdfOutcome | src/convert.py:251-390 | a joint missing an end gives `AttributeError`; otherwise a missing name gives the `TypeError` of `Xml.Serialize`; otherwise the document |
| Sdf.DocumentLayout | src/convert.py:263-267 | the model holds `static=false`, then the links, then the joints |
| Sdf.SdfLinksLayout | src/convert.py:267-272 | the i-th link of the model is the i-th URDF link converted, as `Sdf.LinkTrees` builds them |
| Sdf.SdfJointsLayout | src/convert.py:339-354 | the i-th joint of the model is the i-th URDF joint converted |
| Generate.DocCloseIffRegexMatches | src/generate.py:32 | the search finds a document exactly when the pattern `<?xml…</robot>` matches somewhere, case-insensitively |
| Generate.ExtractOnMatch | src/generate.py:32-35 | on a match, the result is the span from the first `<?xml` to the end of the first closing tag after it |
| Generate.MatchIsDocument | src/generate.py:32 | the matched span starts with `<?xml` and ends with the closing tag |
| Generate.MatchHasNoEarlyClose | src/generate.py:32 | the lazy match contains no closing tag before its last one |
| Generate.ExtractOnMatchIsDocument | src/generate.py:33-35 | on a match, the result is such a document |
| Generate.ExtractOfDocument | src/generate.py:32-35 | a document extracts to itself |
| Generate.ExtractOnNoMatch | src/generate.py:36-37 | without a match, the result is the input stripped of surrounding whitespace |
| Generate.ExtractIsSlice | src/generate.py:32-37 | the result is always one contiguous piece of the input |
| Generate.ExtractIdempotent | src/generate.py:32-37 | extracting twice is extracting once |
| Generate.RegexMatchesInSlice | src/generate.py:32 | a match inside a piece of the text is a match in the text |
| Validate.Max | src/validate.py:33 | `max(s)` is an element of `s` and no element exceeds it |
| Validate.AllCollisions | src/validate.py:26-28 | an entry is scanned iff some link has it among its collisions |
| Validate.AllCollisionsSplit | src/validate.py:26-28 | links are scanned in order: the collisions of link `i` come after those of every earlier link and before those of every later one, in their own order |
| Validate.FirstEstimate | src/validate.py:26-36 | the first collision with a usable geometry decides the estimate; none gives `0.5` |
| Validate.ChassisSizeFirst | src/validate.py:26-35 | the first link with a collision that has a `size` or `radius`, and its first such collision, decide the estimate |
| Validate.ChassisSizeDefault | src/validate.py:26-36 | with no such collision in any link the estimate is `0.5` |
| Validate.ChassisSizeOfBox | src/validate.py:31-33 | a first collision box `(a, b, c)` gives half its largest side |
| Validate.FirstCoincident | src/validate.py:48-60 | the first joint whose child sits on its parent, or none |
| Validate.CheckLinkPositions | src/validate.py:39-61 | passes iff no joint with distinct ends and an origin has a translation norm below 0.01; on failure the message names the first such child and the threshold `max(min_offset, chassis)` |
| Validate.PositionDecisionIgnoresThreshold | src/validate.py:45-60 | the threshold never changes the verdict |
| Validate.OffsetOfOneCentimetrePasses | src/validate.py:56 | a norm of exactly 0.01 passes: the comparison is strict |
| Validate.SkippedJointsNeverFail | src/validate.py:49-53 | joints from a link to itself and joints without an origin never cause a failure |
| Validate.SkipSpace | src/validate.py:68 | `\s*`: the first index at or after `i` that is not whitespace |
| Validate.NextQuote | src/validate.py:68 | the first quote at or after `i` |
| Validate.TailAt | src/validate.py:68 | a match of the pattern's tail, with the captured value free of quotes |
| Validate.ValueAt | src/validate.py:68 | a match of `\s*=\s*["']([^"']+)["']` ends after the start and captures a run free of quotes |
| Validate.ValueAtIff | src/validate.py:68 | the value search finds exactly the declarative matches of `\s*=\s*["']([^"']+)["']` |
| Validate.TailAtIff | src/validate.py:68 | the tail search finds exactly the matches of `effort\s*=\s*["']([^"']+)["']` (any case) |
| Validate.LastWhere | src/validate.py:68 | the greedy `[^>]*` backs off to the last position where the tail matches |
| Validate.NextGt | src/validate.py:68 | the first `>` at or after `i` |
| Validate.MatchAt | src/validate.py:68 | a match of the whole pattern at a position, with a quote-free capture |
| Validate.MatchAtIff | src/validate.py:68 | the pattern matches at `p` exactly when `<limit` (any case) starts there, a `>`-free run follows, and the tail matches after it; of several split points the last one is taken (greedy `[^>]*`) |
| Validate.ScanSkips | src/validate.py:69 | `finditer` passes over positions where the pattern does not match without yielding anything |
| Validate.ScanNext | src/validate.py:69 | the next value `finditer` yields is the capture of the first match, and the scan resumes where that match ends |
| Validate.ScanKeeps | src/validate.py:69 | a property of every match's capture holds of every value `finditer` yields |
| Validate.FindIterCaptures | src/validate.py:68-69 | every value `effort_pattern.finditer` yields is a non-empty run of non-quotes |
| Validate.FindIterNext | src/validate.py:68-69 | the first match of the effort pattern at or after `pos` gives `finditer`'s next value |
| Validate.FindIterWithoutLimitTag | src/validate.py:68-69 | a text without `<limit` (any case) has no matches |
| Validate.FirstWeak | src/validate.py:69-79 | passes iff no parsed value is below the floor; on failure some value is below it; unparsable values are skipped |
| Validate.CheckEffortLimits | src/validate.py:64-79 | passes iff no captured value parses to a number below `min_effort`; on failure the message names the first captured value, in document order, that parses below it |
| Validate.FirstWeakOfValues | src/validate.py:69-79 | the loop over the captured values fails at the first one that parses below the floor and passes iff there is none |
| Validate.EffortOfHundredPasses | src/validate.py:72 | `100` meets the floor |
| Validate.EffortOfNinetyNineFails | src/validate.py:72 | `99` is below the floor |
| Validate.EffortPassesWithoutLimitTags | src/validate.py:68-79 | a document without `<limit` passes the effort check |
| Validate.LimitTagMatches | src/validate.py:68 | the pattern matches `<limit effort="v"/>` at its start and captures `v` |
| Validate.LimitDocYields | src/validate.py:68-69 | `finditer` on `<limit effort="v"/>` and a rest yields `v` first, then resumes scanning just after the closing quote of the tag's value |
| Validate.WeakLimitFails | src/validate.py:64-79 | a document opening with `<limit effort="v"/>` where `v` parses below `min_effort` fails with `v`'s message, whatever follows |
| Validate.ValidateAll | src/validate.py:82-96 | a parse failure gives `(False, "Parse error: …")`; then a position failure is returned; then the effort verdict; success is `(True, "")` |
| Validate.ValidateAllPasses | src/validate.py:82-96 | validation passes iff the document parses, the chassis estimate succeeds, no joint is coincident and no effort is too weak |
| Score.Clamp | src/score.py:44-45 | `lo` below the range, `hi` above it, the value inside it |
| Score.ClampMonotone | src/score.py:44-45 | clamping preserves order |
| Score.RoundMonotone | src/score.py:57 | rounding to a fixed number of digits preserves order |
| Score.RoundWhole | src/score.py:57 | rounding leaves whole numbers unchanged |
| Score.RoundIdempotent | src/score.py:57 | a rounded value is its own rounding: `round(round(x, d), d) == round(x, d)` |
| Score.RoundInPercent | src/score.py:57 | rounding keeps a value in [0, 100] |
| Score.ScoreStability | src/score.py:48-57 | the stability score lies in [0, 100] |
| Score.StabilityAtRest | src/score.py:54-57 | zero or negative displacement scores 100 |
| Score.StabilityMonotone | src/score.py:48-57 | more displacement never scores higher |
| Score.ScoreUprightness | src/score.py:60-68 | in [0, 100]; tilt ≥ 1 gives 100, ≤ 0 gives 0, 0.5 gives 50; on [0, 1] the linear value `round(tilt * 100, 2)` |
| Score.UprightnessMonotone | src/score.py:67-68 | a more upright robot never scores lower |
| Score.ScoreGrounding | src/score.py:71-80 | in [0, 100]; 100 at the spawn height; 0 at a deviation of 5 or more; otherwise `100·(1 − dev/5)` rounded |
| Score.GroundingMonotone | src/score.py:76-80 | a smaller deviation never scores lower |
| Score.TerrainMultiplier | src/score.py:83-85 | at least 1; `None`, `""` and unknown modes give 1.0 |
| Score.TerrainMultiplierIgnoresCase | src/score.py:85 | the lookup ignores case |
| Score.TerrainMultiplierTable | src/score.py:20-25 | flat 1.0, slope 1.15, stairs 1.25, uneven 1.30 |
| Score.WeightedScore | src/score.py:118-126 | the weighted sum of the three components lies in [0, 100] |
| Score.FinalScore | src/score.py:128-137 | the clamped and rounded final score lies in [0, 100] |
| Score.FinalScoreMonotone | src/score.py:128 | a larger multiplier never lowers the final score |
| Score.Report | src/score.py:115-138 | the report carries the terrain mode, its multiplier and a final score in [0, 100] |
| Score.ComputeScore | src/score.py:88-138 | `ValueError` exactly for missing, non-dict or empty metrics; otherwise the final score is in [0, 100] and an explicit terrain mode overrides the metrics' one |
| Score.WeightsSumToOne | src/score.py:30-32 | the weights sum to 1 |
| Score.PerfectScore | src/score.py:88-138 | no displacement, upright, at the ideal height, on flat ground scores 100 |
| Score.HarderTerrainNeverLowers | src/score.py:115-128 | a terrain with a larger multiplier never lowers the final score |
| Score.ScoreLabel | src/score.py:141-153 | the label bands are `[90,∞)` Excellent, `[75,90)` Great, `[60,75)` Good, `[40,60)` Fair, `[20,40)` Poor, below 20 Unstable, each an iff |
| Score.ScoreLabelMonotone | src/score.py:141-153 | a higher score never gets a worse label |
| Simulate.GenerateFeedbackSuggestions | src/simulate.py:260-332 | the step-by-step list equals the rule specification |
| Simulate.AddPhysicsIssues | src/simulate.py:277-302 | the physics rules append their suggestions in order |
| Simulate.AddExplosion | src/simulate.py:315-320 | the explosion suggestion is appended iff some issue mentions `explod` and nothing so far mentions `unstable` |
| Simulate.HasUnstable | src/simulate.py:316 | the scan finds a suggestion mentioning `unstable` iff one is present |
| Simulate.TextSaysUnstable | src/simulate.py:316 | a suggestion's text mentions `unstable` iff it is the displacement or the explosion suggestion |
| Simulate.MentionsUnstableIff | src/simulate.py:316-318 | the same, stated per suggestion |
| Simulate.ExplosionStep | src/simulate.py:315-316 | the issue scan extends one issue at a time |
| Simulate.BaseUnstableIff | src/simulate.py:278-314 | the suggestions before the issue scan mention `unstable` iff the displacement exceeds 2 |
| Simulate.FeedbackEmptyIffNoMetrics | src/simulate.py:270-330 | the list is empty iff the metrics are missing or empty |
| Simulate.GenericWhenNothingFires | src/simulate.py:323-330 | when no rule fires, the result is exactly the five generic suggestions |
| Simulate.TiltBandsExclusive | src/simulate.py:283-292 | "falls over" and "tilts significantly" never both appear |
| Simulate.TiltBands | src/simulate.py:283-292 | "falls over" means tilt < 0.3; "tilts significantly" means tilt ≥ 0.3 |
| Simulate.FromBase | src/simulate.py:277-314 | every non-generic, non-explosion suggestion comes from the rules before the issue scan |
| Simulate.ExplosionAtMostOnce | src/simulate.py:278-320 | the explosion suggestion appears at most once, and never after the displacement suggestion |
| Simulate.MissingKeysGiveTooLow | src/simulate.py:273-297 | metrics without the three keys give only "too low" |
| Simulate.FirstSeenPairs | src/simulate.py:122-132 | reported pairs are contacts between non-adjacent links, not already seen |
| Simulate.FirstSeenPairsDistinct | src/simulate.py:129-132 | no unordered pair is reported twice |
| Simulate.FirstSeenPairsComplete | src/simulate.py:122-132 | every non-adjacent contact is reported, or was already seen |
| Simulate.FirstSeenPairsInOrder | src/simulate.py:122-132 | each report is a contact exactly as given (same orientation), at positions of the contact list that increase from one report to the next, and no earlier contact has the same unordered pair |
| Simulate.Describe | src/simulate.py:133-142 | one description per reported pair |
| Simulate.CheckSelfCollisions | src/simulate.py:112-143 | the loop over the contacts with the `seen` set gives the descriptions of the first-seen pairs, in order |
| Simulate.DescribeAppend | src/simulate.py:134-142 | a pair is described `a<->b`, with link −1 named `base` |
| Simulate.LoadTerrain | src/simulate.py:96-109 | `None`, `""` and unknown modes dispatch to the flat loader; each other terrain is chosen exactly when the lower-cased mode is its name |
| Simulate.SpawnHeight | src/simulate.py:32-93 | every loader spawns at a height of at least 0.6 |
| Simulate.LoadTerrainIgnoresCase | src/simulate.py:98 | the dispatch ignores case |
| Simulate.LoadTerrainByName | src/simulate.py:99-108 | each terrain is reached by its own name |
| Simulate.TerrainsHaveMultipliers | src/simulate.py:29 | every terrain mode has a multiplier of at least 1 in the score table |
| Simulate.Reach | src/simulate.py:373-375 | `min(amplitude, half_range)` is positive, at most 0.5 and at most half the range |
| Simulate.MotorTargetWithinLimits | src/simulate.py:372-377 | with ordered limits and a sine in [−1, 1], the target lies within the limits and within 0.5 of their midpoint |
| Simulate.MotorTargetWithoutLimits | src/simulate.py:369 | without ordered limits, the target lies within ±0.5 |
| Agent.FirstLegMatch | src/agent.py:48-52 | the candidate loop returns the first firing candidate's count when the prompt mentions legs, else `(False, 0)` |
| Agent.IsMultiLegRequest | src/agent.py:45-52 | the count is in {0, 4, 6, 8}; the flag holds iff the count is positive; no leg word gives `(False, 0)` |
| Agent.IsMultiLegRequestFirstMatch | src/agent.py:48-52 | a firing candidate with a leg word makes it a request; the count is that of the first firing candidate in list order |
| Agent.FourteenLegsIsFour | src/agent.py:49 | "14 legs" asks for four legs, because the digit test is a substring test |
| Agent.HexapodAloneIsNotMultiLeg | src/agent.py:49-52 | "hexapod" alone names no count |
| Agent.HexapodNamesNoCount | src/agent.py:48-49 | no candidate fires on "hexapod" |
| Agent.LegAnglesSpread | src/agent.py:31-32 | the angles of `Agent.LegAngles` start at 0, increase strictly and stay below 360 |
| Agent.BuildLegPrompt | src/agent.py:26-42 | the prompt names the leg count (`{num_legs}-legged`), its numbers are exactly the angles of `Agent.LegAngles`, and the request comes last |
| Rag.RunLength | src/rag.py:59 | the length of the leading `[a-z0-9]` run, which is maximal |
| Rag.Tokens | src/rag.py:59 | every token is a non-empty run of `[a-z0-9]` |
| Rag.TokensKeepTokenChars | src/rag.py:59 | the tokens together are exactly the token characters of the text, in order |
| Rag.TokensAreRuns | src/rag.py:59 | there is one token per maximal run |
| Rag.Count | src/rag.py:64 | a count never exceeds the number of tokens |
| Rag.Distinct | src/rag.py:64-66 | the distinct terms in first-seen order, without repeats |
| Rag.CountsAddUp | src/rag.py:64-66 | the counts of the distinct terms add up to the number of tokens |
| Rag.TermFrequency | src/rag.py:62-66 | the keys are the distinct tokens in first-seen order |
| Rag.TermFrequencyValue | src/rag.py:66 | each value is count/len |
| Rag.TermFrequencyKeys | src/rag.py:62-66 | keys are distinct and exactly the tokens; empty input gives an empty map |
| Rag.TermFrequencyInUnit | src/rag.py:66 | each value lies in (0, 1] |
| Rag.TermFrequencySumsToOne | src/rag.py:62-66 | the values sum to 1 for non-empty input |
| Rag.DocsStep | src/rag.py:73-76 | each document adds its term set `Rag.TermSet` to the vocabulary and 1 to each of its terms' document frequency |
| Rag.CountOnce | src/rag.py:75-76 | one document's increments to the counter |
| Rag.Idf | src/rag.py:69-81 | the nested counting loops give the idf table of the documents |
| Rag.WeighTerms | src/rag.py:78-81 | each counted term gets `log((N+1)/(df+1)) + 1` |
| Rag.DocFreqBounds | src/rag.py:72-76 | a term's document frequency is at most N, and at least 1 iff the term occurs in some document |
| Rag.IdfWeightOrder | src/rag.py:80 | a rarer term weighs more, and every weight is at least 1 |
| Rag.TfidfVector | src/rag.py:84-87 | the keys are exactly the term-frequency keys |
| Rag.TfidfVectorEntries | src/rag.py:86-87 | each token's entry is its frequency times its idf, with weight 1.0 when missing from the table |
| Rag.CommonTerms | src/rag.py:92 | the common terms are the keys in both vectors |
| Rag.Cosine | src/rag.py:90-102 | 0.0 without common terms or when a magnitude is 0 |
| Rag.DotOverPermutation | src/rag.py:96 | the dot product does not depend on the order of the common terms |
| Rag.CosineSymmetric | src/rag.py:90-102 | the similarity is symmetric |
| Rag.Insert | src/rag.py:163 | insertion keeps the multiset of hits |
| Rag.SortByScore | src/rag.py:163 | sorting is a permutation |
| Rag.SortRanked | src/rag.py:163 | the sort is descending by score and stable |
| Rag.KeepPositive | src/rag.py:166 | only hits with a positive score are kept, each one a hit of the input, and a ranked input gives a ranked result |
| Rag.KeepPositivePositions | src/rag.py:166 | the kept hits are exactly the positive hits of the input, at increasing positions: the `if score > 0.0` filter, in order |
| Rag.TakeFirst | src/rag.py:166 | `scored[:top_k]`: a prefix of length `min(top_k, n)` for `top_k >= 0`, and of length `max(n + top_k, 0)` for a negative `top_k` |
| Rag.RankingProperties | src/rag.py:151-166 | over the hits of `Rag.ScoredHits` turned into pairs by `Rag.Pairs`: at most `top_k` results, every score positive, scores non-increasing, each result a snippet with its cosine |
| Rag.RankingComplete | src/rag.py:157-166 | with `top_k >= 0`, a snippet scoring above 0 that is not returned is outranked by `top_k` other distinct snippets, each scoring at least as much |
| Rag.RankingBest | src/rag.py:157-166 | with a positive `top_k` and some positive score, the first result has the best score of all snippets |
| Rag.Trimmed | src/rag.py:189-191 | content up to 2000 characters is kept whole; longer content is cut to 2000 characters and gets the truncation marker |
| Rag.ExampleParts | src/rag.py:186-193 | three parts per result |
| Rag.ContextScores | src/rag.py:181-201 | the numbers in the context are the result scores in order; the context is empty iff there are no results |
| Rag.ContextShowsEachSnippet | src/rag.py:186-192 | every result's description and trimmed content appear in the context |
| Rag.ContextPartsShow | src/rag.py:186-192 | the i-th result's description and content sit in the parts at 3i+1 and 3i+2 |
| Rag.RagIndex.constructor | src/rag.py:115-121 | a new index is empty and not loaded |
| Rag.RagIndex.Load | src/rag.py:123-137 | marks the index loaded; a missing directory changes nothing else; otherwise the snippets are the directory's and the index invariant holds |
| Rag.RagIndex.Retrieve | src/rag.py:142-171 | loads at most once, then returns the ranking of the snippets for the query's TF-IDF vector |
| Rag.RagIndex.BuildContext | src/rag.py:173-201 | loads at most once, then returns the context text of the ranking |
| Rag.ScoreAll | src/rag.py:157-160 | the scoring loop gives one hit per snippet |
| Rag.AssembleContext | src/rag.py:184-201 | the part-building loop gives the context text |
| Strings.Find | src/generate.py:32 | the first occurrence at or after a position, or none |
| Strings.StripIsSlice | src/generate.py:35-37 | `str.strip()` removes exactly the leading and trailing whitespace |
| Strings.StripIdempotent | src/generate.py:35-37 | stripping twice is stripping once |
| Strings.Words | src/convert.py:55 | `str.split()`: every word is non-empty and whitespace-free |
| Strings.WordsKeepNonSpace | src/convert.py:55 | the words glued together are exactly the non-whitespace characters of the input, in order |
| Strings.WordsAreRuns | src/convert.py:55 | there is one word per maximal run of non-whitespace characters |
| Strings.LowerIdempotent | src/rag.py:59 | lower-casing with `Strings.Lower` (`str.lower()` on ASCII letters) twice is lower-casing once |
| Strings.NatToString | src/convert.py:298 | decimal digits without a leading zero |
| Strings.NatToStringRoundTrip | src/convert.py:298 | the digits read back as the number |
| Numbers.ParseFloatOfNat | src/validate.py:71 | `float()` of a decimal integer is its value |
| Numbers.ParseFloatDecimal | src/validate.py:71 | `float()` of `i.f` is its decimal value |
| Xml.FindChildrenSpec | src/convert.py:103 | `findall(tag)`: exactly the children with that tag, in order |
| Xml.FindChildSpec | src/convert.py:154 | `find(tag)`: a child with that tag, or none iff there is no such child |
| Xml.FindChildIsFirst | src/convert.py:154 | `find` returns the first such child |

## Definitions

These functions stand for a Python construct one-for-one. They have no
contract of their own, or one that only restates their body, so they have no
row above; the rows of the lemmas named here state what they mean.

- `ConvertHelpers.OriginToPosEuler`: `_origin_to_pos_euler` (src/convert.py:76-82); see `Mjcf.BodyPose`.
- `Sdf.Enumerate`: the `enumerate` loops over a link's visuals and collisions (src/convert.py:297-298); see `Sdf.PartNamesDistinct`.
- `Sdf.LinkTrees`: the loop over the URDF links in `urdf_to_sdf` (src/convert.py:270-272); see `Sdf.SdfLinksLayout`.
- `Validate.Efforts`: `float(m.group(1))` of each captured value, `None` where it raises `ValueError` (src/validate.py:71); see `Validate.FirstWeakOfValues`.
- `Validate.Scan` and `Validate.FindIter`: `effort_pattern.finditer(urdf_str)` (src/validate.py:69); see `Validate.ScanSkips`, `Validate.ScanNext` and `Validate.FindIterCaptures`.
- `Agent.LegAngles`: `i * angle_step for i in range(num_legs)` (src/agent.py:31-32); see `Agent.LegAnglesSpread` and `Agent.BuildLegPrompt`.
- `Rag.TermSet`: `set(doc_tokens)` (src/rag.py:74); see `Rag.DocsStep`.
- `Rag.ScoredHits`: the scoring loop of `retrieve` (src/rag.py:157-160); see `Rag.RankingProperties`.
- `Rag.Pairs`: the `(s, score)` pairs of the results (src/rag.py:166); see `Rag.RankingProperties`.
- `Strings.Lower`: `str.lower()` (src/rag.py:59); see `Strings.LowerIdempotent`.
- `Xml.Get`: `el.get(key, default)` (src/convert.py:53); see `Mjcf.BodyPose`.
- `Generate.ExtractDocument`: the shared body of the three extractions below, `re.search(r"<\?xml[\s\S]*?</tag>", text, re.IGNORECASE)`, the match or the whole text, then `.strip()`; see `Generate.ExtractOnMatch`, `Generate.ExtractOnNoMatch`, `Generate.ExtractOnMatchIsDocument`, `Generate.ExtractOfDocument`, `Generate.ExtractIsSlice` and `Generate.ExtractIdempotent`, which hold for every closing tag.
- `Generate.ExtractUrdfFromResponse`: `extract_urdf_from_response` (src/generate.py:26-37), `Generate.ExtractDocument` with `</robot>`; see the rows of `Generate.ExtractDocument`.
- `Generate.ExtractMjcf`: the extraction at the end of `generate_mjcf` (src/convert.py:453-456), with `</mujoco>`; see the rows of `Generate.ExtractDocument`.
- `Generate.ExtractSdf`: the extraction at the end of `generate_sdf` (src/convert.py:470-473), with `</sdf>`; see the rows of `Generate.ExtractDocument`.
- `Simulate.MotorTarget`: the motor target of `_apply_motor_control` (src/simulate.py:369-377); see `Simulate.MotorTargetWithinLimits`, `Simulate.MotorTargetWithoutLimits` and `Simulate.Reach`.
- `Simulate.PhysicsSuggestions`: the physics rules of `generate_feedback_suggestions` (src/simulate.py:273-302); see `Simulate.TiltBands`, `Simulate.TiltBandsExclusive`, `Simulate.BaseUnstableIff` and `Simulate.AddPhysicsIssues`.
- `Simulate.FeedbackSpec`: the whole of `generate_feedback_suggestions` (src/simulate.py:260-332); see `Simulate.GenerateFeedbackSuggestions`, `Simulate.FeedbackEmptyIffNoMetrics`, `Simulate.GenericWhenNothingFires`, `Simulate.FromBase`, `Simulate.ExplosionAtMostOnce` and `Simulate.MissingKeysGiveTooLow`.
- `Rag.Tokenize`: `_tokenize`, `re.findall(r'[a-z0-9]+', text.lower())` (src/rag.py:57-59), `Rag.Tokens` of `Strings.Lower`; see `Rag.Tokens`, `Rag.TokensKeepTokenChars` and `Rag.TokensAreRuns`.
- `Rag.IdfMap`: the table `_idf` returns (src/rag.py:69-81); see `Rag.Idf`, `Rag.WeighTerms`, `Rag.DocFreqBounds` and `Rag.IdfWeightOrder`.
- `Rag.Ranking`: the result of `retrieve` (src/rag.py:142-166); see `Rag.RankingProperties`, `Rag.RankingComplete`, `Rag.RankingBest` and `Rag.RagIndex.Retrieve`.
- `Validate.ChassisSize`: `get_chassis_size` (src/validate.py:20-36); see `Validate.ChassisSizeFirst`, `Validate.ChassisSizeDefault` and `Validate.ChassisSizeOfBox`.
- `UrdfTables.RootOf`: `root_links[0] if root_links else list(links.keys())[0]` (src/convert.py:119-120); see `UrdfTables.RootSelection`.
- `Mjcf.Body`: `_build_body` (src/convert.py:143-239); see `Mjcf.BodyBuilder.BuildBody`, `Mjcf.BodyOk`, `Mjcf.BodyPreorder`, `Mjcf.BodiesFailAt` and `Mjcf.SelfLoopNeverBuilt`.
- `Mjcf.Mujoco`: the document `urdf_to_mjcf` builds after parsing (src/convert.py:98-242); see `Mjcf.BuildMujoco`, `Mjcf.MujocoNesting` and `Mjcf.NoLinks`.
- `Mjcf.MjcfOf`: `urdf_to_mjcf` (src/convert.py:88-245); see `Mjcf.UrdfToMjcf`.
- `Sdf.SdfOf`: `urdf_to_sdf` (src/convert.py:251-390); see `Sdf.UrdfToSdf` and `Sdf.SdfOutcome`.
- `Score.ChosenTerrain`: `terrain_mode or metrics.get("terrain_mode", "flat")` (src/score.py:115); see `Score.ComputeScore`.
- `Xml.Serialize`: `ET.tostring`, which raises `TypeError` on a `None` attribute value (src/convert.py:28); see `Sdf.DocumentSerializable` and `Sdf.SdfOutcome`.

## Left out

- XML parsing (`ET.fromstring`) and urdfpy parsing are parameters. `parse` is a function from text to a parsed tree or an error, and `validate_urdf_parse` is the `parsed` argument of `ValidateAll`.
- `_pretty_xml`'s minidom indentation, the XML declaration line and the final string are not modelled. The converters return the element tree. `Xml.Serialize` models only `ET.tostring`'s `TypeError` on a `None` attribute value.
- `str(float)` formatting is not modelled. Computed numbers stay numbers inside `Pieces.Text`.
- Python's `float()` is a parameter of the geometry conversion, of type `string -> Option<real>`. A real cannot be infinite or NaN, so `size`, `length` or `radius` values such as `inf` or `nan`, which Python's `float()` accepts, are not modelled: the parameter can only reject them or map them to a finite value. The effort check uses `Numbers.ParseFloat`, a concrete decimal parser: sign, digits, fraction and exponent. `inf`, `nan`, digit underscores and non-ASCII digits are not accepted.
- Attribute order within an element is not modelled, because attributes are a map.
- If a conversion fails half-way, the partially built ElementTree elements are not modelled. The model returns the error.
- Python's recursion limit is the `depth` / `fuel` parameter of the MJCF conversion.
- Only ASCII letters are lower-cased. Python's full Unicode `lower()` is not modelled.
- `math.exp`, `math.log`, `math.sqrt` and `math.sin` are function parameters, and each lemma states the bounds it assumes.
- `round()` is exact half-up rounding on reals. Python rounds the binary value, ties to even.
- The `hasattr` dispatch of `get_chassis_size` is modelled abstractly. A geometry has an optional `size` (vector or scalar) and an optional `radius`.
- The unused `parts = rgba.split()` at src/convert.py:318 has no effect and is not modelled.
- The LLM calls (`generate_robot`, the OpenAI requests in `generate_mjcf`/`generate_sdf`, `run_agent`), `src/vision.py`, `web/app.py` and the `.env` loading are out of scope, because they are network and glue code.
- The PyBullet simulation is out of scope, because it is a foreign simulator with floating-point dynamics. This covers `physics_sanity_check`, `simulate_urdf`, `stress_test_urdf`, the terrain loaders' body creation, `_get_movable_joints`, `_record_frame` and `main`. Only the dispatch, the spawn heights and the rule functions are modelled.
- `URDFSnippet`'s file reading and `_parse_metadata`, `glob`/`sorted` and the module singleton in src/rag.py are out, because they are file I/O. Snippets come in as values. The snippet directory is an `Option` of them, with `None` for a missing directory.
- Logging is left out.
- Numbers.ParseFloat: reads decimals exactly instead of rounding to the nearest double, so `"99.99999999999999999"`, which Python reads as `100.0` and lets pass, fails the model's effort check.
- Numbers.ParseFloat: does not read `inf` or `nan`, so `"-inf"`, which Python reads as a value below every floor and rejects, is skipped by the model's effort check and passes.
- Validate.EffortOfNinetyNineFails: states the boundary with `99` rather than `99.99`, because evaluating the decimal parser on a concrete fractional literal is too costly for the solver. `Numbers.ParseFloatDecimal` states the general decimal case.

## Notes on the source

- Chassis size: the docstring of `get_chassis_size` says the estimate comes from the base link's geometry (src/validate.py:21-23). The loop scans every link in document order and returns at the first collision with a `size` or a `radius` (src/validate.py:26-36). The model follows the loop, and `Validate.ChassisSizeFirst` states which collision decides.
- Effort check: the docstring speaks of joint efforts (src/validate.py:65-67). The regular expression runs over the whole document text (src/validate.py:68-69), so any tag whose name starts with `limit` in any case is read wherever it sits, and a value `float()` rejects is skipped (src/validate.py:77-78). The model follows the code.
- MJCF joints: the comment at src/convert.py:194 names only fixed joints, but every joint type other than revolute, continuous and prismatic falls through to it, `floating` and `planar` included. Such joints emit no joint element and no motor, and `Mjcf.OtherJointsVanish` states this.
- Stability score: the docstring says a displacement of `MAX_DISPLACEMENT` or more scores 0 (src/score.py:51). The code decays exponentially (src/score.py:56) and never reaches 0. The model follows the code and proves only the [0, 100] bound and monotonicity.
