# A verified model of the nri-kubernetes metrics pipeline

nri-kubernetes scrapes Prometheus text and kubelet data, filters and queries it, groups it by
entity, merges several sources and populates an integration with entities and metrics. This
project models the data transformations in the middle of that pipeline and the state the
program keeps over time, and proves what they compute.

How the Go program is rendered:

- Loops are methods with invariants, proved against functions or predicates that do not mention
  the loop. Objects whose methods update fields (the two caches, the filter, the group store, the
  populator's group maps, the main loop, the integration) are classes.
- Ranging over a Go map is an arbitrary choice (`k :| k in todo`), so every contract holds for every
  iteration order. Where the order can show in the result (a random metric, colliding label
  keys), the function is described by the predicate of its possible outcomes, the loops are
  shown to stay inside it, and lemmas say exactly when only one outcome is possible.
- `RawValue` is Go's `interface{}`: a bare `Metric`, a `[]Metric`, text, numbers, interface tables.
- Floats are reals. The 64-bit counters of the node record and of the main loop wrap.
- Network answers, clocks, SDK answers and API objects are inputs.

Files follow the components: `Text`, `Bags`, `RawData` (foundations); `Grouping`, `Inheritance`,
`Namespaces`, `Narrowing`, `AttributeNames`, `Aggregation`, `Counting`, `SplitGroup` (Prometheus
grouping and fetching); `ExpositionFilter`, `ExpositionText`, `Query` (text filter and query); `Pods`, `Cadvisor`,
`StatsSummary`, `EntityKeys`, `KubeletMerge`, `NodeData`, `KubeletGrouper`, `KubeletPipeline`
(kubelet sources); `Population`, `PopulationRuns`,
`PopulationOutcomes`, `Populator`, `KsmPipeline`, `KsmIdentity`,
`KubeletIdentity` (population); `Network`, `InterfaceNumbers`, `NamespaceFilter`, `ScrapeLoop`,
`Connector` (interfaces, filter and state over time).

Where code and documentation disagree, the code is modelled, with an input that shows it and
the exact condition under which the promise holds:

- the "lowest-numbered" interface is the alphabetically least one (`LowestNumberedIff`);
- label filters are bypassed for a bare metric, so a count can include what does not match
  (`CountRightIff`);
- an entity all of whose metrics are lists is filtered by the empty namespace instead of its own
  (`FilteredByKeyIff`);
- counting treats a missing group or entity as zero, not as an error, when its name contains
  "metric" (`CountsAsZeroIff`);
- same-entity label inheritance does not work for containers (`ContainerSelfInheritanceFails`);
- the interface cache can change results (`TransparentIff`), and vote counting can miss an absent
  label (`VotesDecideIff`).

## Model

| member | source | states |
|---|---|---|
| Grouping.GroupMetricsBySpec | src/prometheus/definition.go:231-295 | for every order of the spec groups, each (group, entity, name) cell holds exactly the eligible series with that key and name, in input order, bare iff one and a list iff more; one error per group without data |
| Grouping.CollectGroup | src/prometheus/definition.go:234-286 | the middle loop makes one group's table exact and touches no other group |
| Grouping.CollectFamily | src/prometheus/definition.go:235-285 | the inner loop extends an exact table by one family's series |
| Grouping.ItemsConcat | src/prometheus/definition.go:231-296 | the series of an input are those of its families in order |
| Grouping.FamilyItems | src/prometheus/definition.go:235-285 | every series of a family is visited in order under its name |
| Grouping.PutStep | src/prometheus/definition.go:266-284 | one series stored, as a bare metric or appended to a list, keeps the table exact; a skipped series changes nothing |
| Grouping.GroupingUnique | src/prometheus/definition.go:231-295 | the declarative form determines the groups, so iteration order cannot show |
| Grouping.SeriesComplete | src/prometheus/definition.go:233-286 | a cell holds a series as often as it occurs among the families of that name, if it belongs there, and never otherwise |
| Grouping.StoredSeries | src/prometheus/definition.go:236-284 | everything stored under an entity is eligible for the group and has that entity's key |
| Grouping.CellExact | src/prometheus/definition.go:235-284 | what a cell holds, by labels alone: the series of that family name which carry the group's label and, for namespaces, none of daemonset, pod, endpoint, service, deployment, replicaset, for nodes no pod, and whose labels spell the raw ID; in input order, bare iff one |
| Inheritance.PrefixLabels | src/prometheus/definition.go:597-609 | the label loop yields one of the possible renamings |
| Inheritance.PrefixedDeterministic | src/prometheus/definition.go:599-609 | label order never shows iff no labels x and prefix_x, where x does not start with prefix_, have different values |
| Inheritance.PrefixedExact | src/prometheus/definition.go:599-609 | prefix.x is reported iff there is a label prefix_x, or a label x not starting with prefix_; with the value of that label, of either one if there are both; nothing else is reported |
| Inheritance.GetRandomMetric | src/prometheus/definition.go:864-874 | returns some bare metric if there is one, otherwise the last value visited |
| Inheritance.GetRandomMetricWithLabels | src/prometheus/definition.go:889-906 | returns some bare metric carrying both labels, and fails iff there is none |
| Inheritance.GetRawEntityID | src/prometheus/definition.go:1029-1073 | resolves the parent ID from a randomly chosen metric, by the rules of global and namespaced parents |
| Inheritance.LabelsFromMetric | src/prometheus/definition.go:952-989 | yields only possible outcomes of inheriting a parent's labels |
| Inheritance.FromMetricWithPrefixedLabels | src/prometheus/definition.go:585-613 | renamed own labels; a missing metric is no error, a list is |
| Inheritance.OwnLabelsExact | src/prometheus/definition.go:585-613 | by what is stored: nil for a missing metric, an error for anything but a bare one, else its renamed labels |
| Inheritance.ParentIdIff | src/prometheus/definition.go:1029-1073 | an ID can be resolved iff a bare metric of the entity spells it: the parent label alone for global parents, namespace and parent label otherwise |
| Inheritance.ParentFailsIff | src/prometheus/definition.go:1029-1073 | resolving can fail, and with which error, iff no bare metric carries the labels; for global parents also if some bare metric lacks the label |
| Inheritance.InheritedIff | src/prometheus/definition.go:952-989 | inheriting succeeds with exactly the renamed labels of a bare metric of a parent some bare metric leads to |
| Inheritance.OwnParent | src/prometheus/definition.go:1029-1073 | in built groups other than container, resolving an entity's own group gives the entity itself, and succeeds iff a suitable bare metric exists |
| Inheritance.SelfInheritance | src/prometheus/definition.go:567-613 | inheriting from one's own group has exactly the outcomes of the direct fetch, for every random metric |
| Inheritance.SelfInheritanceExact | src/prometheus/definition.go:1012-1016 | the two can agree on a value iff the metric is bare and the group is global or some bare metric carries a namespace |
| Inheritance.ContainerSelfInheritanceFails | src/prometheus/definition.go:1050-1071 | inheriting from container inside container always fails for names without underscores |
| Namespaces.FromLabelGetNamespace | src/prometheus/definition.go:164-172 | returns some non-empty namespace a bare metric names, "" iff none does |
| Namespaces.FoundIff | src/prometheus/definition.go:164-172 | a namespace can be found iff a bare metric has it as label; none iff they have no other |
| Namespaces.OneNamespacePerEntity | src/prometheus/definition.go:257-264 | all series of an entity of a namespace-keyed group name the namespace written in its key |
| Namespaces.NamespaceDeterministic | src/prometheus/definition.go:164-172 | the result is the namespace in the key, for every iteration order |
| Namespaces.NamespaceFoundOnce | src/prometheus/definition.go:164-172 | for any metrics, also of persistent volumes, the result is independent of order iff all bare metrics that name a namespace agree |
| Namespaces.ParentNamespaceExact | src/prometheus/definition.go:1035-1049 | resolving the namespace parent is order-independent iff all bare metrics carry the label or none does |
| Namespaces.ParentNamespaceDetermined | src/prometheus/definition.go:1035-1049 | for an entity whose key names a namespace, resolution gives that namespace in every order, or always the type error |
| Narrowing.NarrowedFetch | src/populator/populator.go:133-141 | FromRaw, FromLabelValue and FromValue read the same from narrowed and full groups |
| Narrowing.NarrowedInheritance | src/populator/populator.go:133-141 | label inheritance has the same outcomes on narrowed and full groups, parent group different or the same but not container, for whole entities and for split parts |
| Narrowing.NarrowedContainerAlwaysFails | src/populator/populator.go:137-141 | on narrowed groups, container self-inheritance fails for every outcome |
| AttributeNames.SuffixLabelsInOrder | src/prometheus/definition.go:617-629 | the name depends on the labels only, not on their iteration order |
| AttributeNames.ApplyFilter | src/prometheus/definition.go:301-358 | the filter loops keep exactly the labels outside the ignored names, the included names, or the pairs shared with the match labels, in any order |
| AttributeNames.FilterLabels | src/prometheus/definition.go:362-365 | the filters are applied one after the other |
| AttributeNames.FilteredExact | src/prometheus/definition.go:301-365 | a label is left iff it passes every filter, and keeps its value |
| AttributeNames.AttributeNameExact | src/prometheus/definition.go:362-372 | from labels to text: the override or else the metric's name, then the key_value of exactly the labels that pass every filter, in alphabetical order |
| Aggregation.FetchedValuesFromRawMetrics | src/prometheus/definition.go:416-440 | the loop is the fold of the series under their attribute names |
| Aggregation.FoldExact | src/prometheus/definition.go:416-440 | for values of any kinds: an error iff some counter or gauge directly follows another kind under one name; otherwise each name has the aggregate of its values |
| Aggregation.AggregateStep | src/prometheus/definition.go:830-857 | adding one value errs iff it clashes, else gives the aggregate of the longer list |
| Aggregation.NumericErrors | src/prometheus/definition.go:830-857 | for counters and gauges, an error iff one name receives both kinds |
| Aggregation.PermutationInvariant | src/prometheus/definition.go:416-440 | permuting named counter and gauge values changes neither success nor result |
| Aggregation.SeriesOrderIrrelevant | src/prometheus/definition.go:416-440 | permuting the series changes nothing, whatever names they get |
| Aggregation.SeriesTotalConserved | src/prometheus/definition.go:396-440 | the fetched values add up to the input series |
| Aggregation.FromValueWithOverriddenName | src/prometheus/definition.go:449-468 | a bare metric's value, or the fetched values of a list |
| Aggregation.FromValueExact | src/prometheus/definition.go:449-468 | by what is stored: the bare value; for a list, under every attribute name the aggregate of its series, an error iff the values of one name clash |
| Counting.FetchedValuesFromRawMetricsWithLabels | src/prometheus/definition.go:738-778 | the matching series aggregated under one name, with zero for no match on request |
| Counting.GaugeCount | src/prometheus/definition.go:738-778 | matching gauges are counted as their sum |
| Counting.MatchingIff | src/prometheus/definition.go:819-827 | a series matches iff some label of it passes every filter |
| Counting.CountFromValueWithLabelsFilter | src/prometheus/definition.go:785-817 | a bare metric as it is; of a list, the filtered fold with zero for no match; an error whose text mentions "metric" and "not found" is zero too |
| Counting.FromValueWithLabelsFilter | src/prometheus/definition.go:699-715 | the same without the zeros |
| Counting.CountRightIff | src/prometheus/definition.go:706-808 | for gauges, the reported amount is the total of the matching series, iff the stored value is not a bare metric that does not match and is not zero |
| Counting.CountIsNamed | src/prometheus/definition.go:738-818 | a count of series has one attribute, under the overriding name if there is one |
| Counting.BareAddressIsCounted | src/metric/definition.go:911-920 | one address that is not ready is counted as an available one, two are not |
| Counting.CountsAsZeroIff | src/prometheus/definition.go:788-804 | a missing metric always counts as zero, a missing group or entity iff its own name contains "metric" |
| Counting.MissingEntityCountsAsZero | src/prometheus/definition.go:791-801 | the missing entity "default_metrics-server" is counted as zero instead of an error |
| SplitGroup.Split | src/populator/populator.go:248-289 | one part per label value with its series in order and the shared metrics; an error iff the metric is not a list |
| SplitGroup.PartitionExact | src/populator/populator.go:259-286 | every labelled series is in the part of its value, as often as it occurs, and in no other |
| SplitGroup.PartContents | src/populator/populator.go:265-276 | a part exists iff its value occurs, and copies all shared metrics |
| SplitGroup.PartSameBare | src/populator/populator.go:263-276 | a part has exactly the bare metrics of its entity |
| SplitGroup.FromFlattenedMetrics | src/prometheus/definition.go:538-565 | the list flattened by a label, nothing for a missing list |
| SplitGroup.FlattenedExact | src/prometheus/definition.go:538-565 | for every value of the label the last series carrying it, no data iff there is no non-empty list |
| SplitGroup.SubEntityValues | src/populator/populator.go:170-179 | flattening sub-entity r at key t gives the last input series with that pair of label values |
| Populator.UnitsFromParts | src/populator/populator.go:170-179 | one unit per part, under pairwise different IDs |
| Populator.FilterGroup | src/populator/populator.go:77-96 | skips iff a namespace getter and filter reject a group other than namespace; namespaces get the negated verdict |
| Populator.PrepareProcessingUnits | src/populator/populator.go:158-211 | the units of the raw entity, each once and under different IDs, or the reason why there are none |
| Populator.PopulateValue | src/populator/populator.go:328-356 | sets the fetched names to the fetched values, in any order, up to the first one the SDK refuses; succeeds iff there are values and all are accepted |
| Populator.MetricSetPopulate | src/populator/populator.go:292-325 | per spec in order: an error for a failed fetch unless optional, nothing for nil, otherwise its values set as above |
| Populator.NarrowedCopy | src/populator/populator.go:133-138 | a new outer map sharing the inner ones, with the unit alone in its own group |
| Populator.ProcessEntities | src/populator/populator.go:99-152 | per unit in order: created with its attributes if the SDK accepts it, then its metrics set, reading a narrowed copy of the groups |
| Populator.IntegrationPopulator | src/populator/populator.go:33-72 | every due entity is created exactly once and no other; only names and values its specs fetch and the SDK accepts are set, and all of a spec none of whose values is refused; the cluster sample comes last, iff populated, which implies a metric was set; errors are those of the run; the groups object is unchanged |
| PopulationRuns.RunExact | src/populator/populator.go:33-72 | the same for every run the loops could make, whatever order maps are ranged in |
| PopulationRuns.RunPopulates | src/populator/populator.go:58-66 | a run is populated iff some unit of an entity that passes has a spec set in full |
| PopulationRuns.RunCreatesFirst | src/populator/populator.go:104-141 | in every run an entity is created before a metric is set on it |
| PopulationRuns.LastSpecWins | src/populator/populator.go:303-323 | a name ends up with the value fetched by the last spec that got as far as setting it, also if another of its values was refused, and unset iff there is none |
| PopulationRuns.IdentitiesStaySeparate | src/populator/populator.go:103-108 | where ID and type determine the raw entity, no two creations of a run share both |
| PopulationRuns.EntityAttributes | src/populator/populator.go:110-120 | every created entity carries the cluster name, its ID as display name, and the cloud resource ID iff one is configured |
| PopulationRuns.FilterGuarantees | src/populator/populator.go:74-96 | a due entity has an allowed namespace, a namespace entity carries nrFiltered equal to the negated verdict |
| PopulationOutcomes.CreatedIff | src/populator/populator.go:158-211 | in every run an entity is created under an ID and type iff its raw entity is admitted by the filter, the configured generators give that ID and type (raw ID and no type without one, raw ID and label value for a part), and the SDK accepts it |
| PopulationOutcomes.CreatedIdentity | src/populator/populator.go:183-201 | every created entity has the ID and type its generators return |
| PopulationOutcomes.MetricsExact | src/populator/populator.go:292-356 | a metric is set only if a spec of a processed unit offers that value under that name and the SDK accepts it, and is set if none of the values of the spec is refused |
| PopulationOutcomes.PopulatedIff | src/populator/populator.go:33-68 | the run succeeds, and the cluster sample is attempted, iff some spec offered values of which none was refused |
| PopulationOutcomes.ErrorsExact | src/populator/populator.go:47-57 | every error has its reason in the configuration, and every reason that does not depend on the order of a bundle is reported |
| PopulationOutcomes.UnpreparedIsReported | src/populator/populator.go:160-199 | a failing generator or a missing list creates nothing for the entity and is reported |
| PopulationOutcomes.FetchFailuresIff | src/populator/populator.go:306-313 | a failed fetch is reported iff it is one of a spec that is not optional, of an entity that was created (or a guesser returned that very error) |
| KsmPipeline.CreatedOnlyIfAllowed | src/populator/populator.go:83-95 | an entity of any group is created only if, and a namespace entity flagged by whether, the namespace its getter finds is allowed: in namespace-keyed groups the one in its key if a bare metric names one; in all groups "" if none does |
| KsmPipeline.CreatedIffJudgedAllowed | src/populator/populator.go:83-92 | under a filter, an otherwise due entity is created iff the namespace it is judged by is allowed |
| KsmPipeline.FilteredByKeyIff | src/populator/populator.go:83-92 | for all filters the namespace in the key decides, none leaks the entity and none drops it, each iff some bare metric names a namespace |
| KsmPipeline.HiddenNamespace | src/prometheus/definition.go:164-172 | two series in namespace "bad" form a list, and their entity is dropped by a filter that allows "bad" and not "", and created by one that forbids "bad" and allows "" |
| KsmPipeline.UnnamedIsDropped | internal/discovery/namespace_filter.go:54-107 | with a configured selector that could be listed, an entity no bare metric of which names a namespace is never created |
| NamespaceFilter.IsAllowed | internal/discovery/namespace_filter.go:54-107 | everything without a selector or up to a failed listing, otherwise what every selector lists |
| NamespaceFilter.AllowedStepwise | internal/discovery/namespace_filter.go:84-111 | expressions decide in order: a failed listing admits, a listing without the namespace rejects |
| NamespaceFilter.EmptyNamespaceRejected | internal/discovery/namespace_filter.go:74-107 | a selector that was listed never admits the empty namespace |
| KsmPipeline.BuiltCountRightIff | src/metric/definition.go:911-931 | on built groups a count is the total of the matching series of the entity, iff it has not a single series that does not match and is not zero |
| KsmPipeline.UnitFetchIsFullFetch | src/populator/populator.go:133-141 | label inheritance as the populator applies it, to whole entities and parts, yields only outcomes of the full groups |
| KsmPipeline.SetLabelsAreInherited | src/populator/populator.go:140-141 | every metric an inheriting spec sets is a label of a parent found in the full groups |
| KsmPipeline.SetSeriesAreLast | src/populator/populator.go:170-179 | every metric a flattening spec sets on a sub-entity is the last series with that pair of label values |
| KsmIdentity.KsmRunsKeepIdentities | src/prometheus/definition.go:60-138 | in every run over built groups with label-based IDs and types, no two created entities share both, if names of split entities have no underscore |
| KsmIdentity.LabelTypeIff | src/prometheus/definition.go:60-97 | there is a type iff the group is global or the metric carries a non-empty namespace (for containers also a pod), and how it is spelled |
| KsmIdentity.SplitIdUniqueIff | src/populator/populator.go:172-172 | within a namespace a sub-entity shares its ID with no other, iff neither its name nor its label value has an underscore |
| ExpositionFilter.FilterLine | src/prometheus/query.go:218-254 | one line: the new state, whether it is kept, whether it declares an unsupported family |
| ExpositionFilter.FilterUnsupportedMetrics | src/prometheus/query.go:206-263 | keeps the lines the state machine keeps, skips the names on unsupported TYPE lines in order, fails on a read error |
| ExpositionFilter.Idempotent | src/prometheus/query.go:198-263 | filtering twice is filtering once, for any lines |
| ExpositionFilter.StateMeansGoverned | src/prometheus/query.go:149-183 | the machine skips iff an earlier unsupported declaration is not yet ended by a TYPE line or another family's HELP line |
| ExpositionFilter.SampleDroppedIffGoverned | src/prometheus/query.go:247-250 | a sample line is dropped iff such a declaration governs it |
| ExpositionFilter.DocumentSamples | src/prometheus/query.go:198-263 | for every document of family blocks, the samples kept are those of the blocks not dropped, in order |
| ExpositionFilter.SupportedSamplesKept | src/prometheus/query.go:198-205 | with distinct neighbours, exactly the samples of families not typed as unsupported by their own header |
| ExpositionText.OneFamily | src/prometheus/query.go:145-168 | of "# TYPE name kind" and a sample, both lines go and the name is skipped iff the kind is info or stateset, else both stay |
| ExpositionText.FieldsOfThree | src/prometheus/query.go:152-158 | taking a line of words apart gives back the words |
| ExpositionText.HelpLineEffect | src/prometheus/query.go:170-196 | a HELP line of another family ends the skipping and is kept, one of the skipped family is dropped |
| ExpositionText.WrittenKept | src/prometheus/query.go:198-263 | every document of families with their kinds as data, to the letter: families of kind info and stateset lose everything but a leading HELP line and comments, the others stay as written, and the skipped names are those of the former |
| ExpositionText.SupportedSamplesReach | src/prometheus/query.go:198-205 | the samples that reach the parser are those of the families whose kind is neither info nor stateset, in order |
| Query.AreIn | src/prometheus/metric.go:28-39 | the nested loops count the positions that match a required label |
| Query.AreInExact | src/prometheus/metric.go:27-39 | the count decides inclusion when no required pair repeats, and misses it when one does |
| Query.VotesDecideIff | src/prometheus/metric.go:27-39 | for a label list, the count decides inclusion for every query iff no pair of the list occurs twice |
| Query.AreInMiscounts | src/prometheus/metric.go:28-39 | a repeated pair can hide an absent label |
| Query.Execute | src/prometheus/query.go:53-115 | nothing for another name or an empty family, else the selected series in order |
| Query.AndNorPartition | src/prometheus/query.go:63-91 | a label query and its negation split any family's series in order, and so do a value query and its negation |
| Query.ComplementsPartition | src/prometheus/query.go:63-99 | any two queries that disagree on every series split every family in order |
| Query.BothNegatedSplitIff | src/prometheus/query.go:64-91 | with a label and a value query, the doubly negated form selects exactly what the plain one does not, for a series iff it meets both conditions or neither |
| Query.SelectedCarryRequired | src/prometheus/query.go:64-96 | every series an And query returns carries the required labels with their values |
| Query.AndSelectsIncluded | src/prometheus/query.go:66-75 | with distinct label names, And selects iff all required pairs occur and Nor iff not |
| Query.SelectsIff | src/prometheus/query.go:64-91 | a series is selected iff it has all required pairs (Nor: not all) and its value prints like the wanted one (Nor: unlike it), each only if asked for |
| Query.ConvertExact | src/prometheus/query.go:93-134 | a returned series has the value of its family's type and, under each name, the last label value |
| Query.MatchesAreSelected | src/prometheus/query.go:63-99 | what is returned are the selected series, converted |
| KubeletMerge.FillRecord | src/kubelet/grouper/group.go:198-202 | adds missing metrics, never overwrites |
| KubeletMerge.FillEntities | src/kubelet/grouper/group.go:193-203 | fills the entities already known, adds none |
| KubeletMerge.GroupStore.FillGroupsAndMergeNonExistent | src/kubelet/grouper/group.go:186-205 | the store becomes the merge, for every iteration order |
| KubeletMerge.FoldedEntities | src/kubelet/grouper/group.go:62-98 | after any fold, a group has the entities of the first source with that group |
| KubeletMerge.FoldedValues | src/kubelet/grouper/group.go:62-98 | and each metric the value of the earliest source defining it |
| KubeletMerge.RemergeChangesNothing | src/kubelet/grouper/group.go:186-205 | merging any source again changes nothing |
| NodeData.SumRequested | src/kubelet/grouper/group.go:107-121 | the 64-bit sum over all containers, for every iteration order; no sum iff a request is not a number |
| NodeData.WrapExact | src/kubelet/grouper/group.go:107-121 | the sum is the one int64 congruent to the exact total |
| NodeData.CountRunningPods | src/kubelet/grouper/group.go:172-184 | the number of pods whose status is Running |
| NodeData.NodeConditions | src/kubelet/grouper/group.go:124-147 | the loop is the fold of the conditions |
| NodeData.ConditionsExact | src/kubelet/grouper/group.go:123-147 | a condition is 1 (0) iff all its valid reports are True (False), -1 if they disagree or one is Unknown, absent without reports |
| KubeletGrouper.Group | src/kubelet/grouper/group.go:62-169 | does not abort iff all inputs are there, then panics iff a request is not a number, else is the fold of all sources in order with the node record last |
| KubeletGrouper.NodeExact | src/kubelet/grouper/group.go:107-166 | the final node, metric by metric: what a source delivered, else labels, allocatable, capacity, conditions and so on of the API object, the sum of each resource over the merged containers, the number of running pods |
| EntityKeys.SourcesAgree | src/kubelet/metric/cadvisor.go:111-131 | cAdvisor, stats and pods build one key for one container |
| EntityKeys.KeyInjective | src/kubelet/metric/pods.go:515-521 | different containers never share a key when namespace and pod have no underscore |
| EntityKeys.KeyUniqueIff | src/kubelet/metric/pods.go:515-521 | a container shares its key with no other iff none of its three names has an underscore |
| EntityKeys.KeyCollides | src/kubelet/metric/pods.go:515-521 | with an underscore in any name, another container has the same key |
| EntityKeys.CreateRawEntityID | src/kubelet/metric/cadvisor.go:111-131 | the key of the container the labels name, "" for none of interest, or what is missing |
| EntityKeys.GetLabel | src/kubelet/metric/cadvisor.go:26-33 | the first of the names that is present |
| EntityKeys.GetKeys | src/kubelet/metric/metric.go:351-377 | the text fields in order, or the first failure |
| EntityKeys.GenerateEntityType | src/kubelet/metric/metric.go:309-342 | the type from cluster, names and group, or why there is none |
| EntityKeys.EntityTypeIff | src/kubelet/metric/metric.go:309-342 | there is a type iff the record has the non-empty names, and how it is spelled |
| EntityKeys.EntityIdIff | src/kubelet/metric/metric.go:273-304 | a container has the ID in its containerName field, a pod its raw ID without the namespace, others their raw ID |
| EntityKeys.PodIdRoundTrip | src/kubelet/metric/metric.go:290-304 | the pod ID generator undoes podID for every non-empty pod name and refuses the empty one |
| EntityKeys.PodsNeverCollapse | src/kubelet/metric/metric.go:288-342 | entity ID and type determine the raw pod |
| EntityKeys.ContainersNeverCollapse | src/kubelet/metric/metric.go:272-342 | entity ID and type determine the raw container |
| EntityKeys.IdentityInjective | src/kubelet/metric/metric.go:272-342 | entity ID and type separate all entities of all kubelet groups |
| Cadvisor.GroupContainers | src/kubelet/metric/cadvisor.go:43-98 | every record is built from its own container's series only; faults are reported in order |
| Cadvisor.ClassifySeries | src/kubelet/metric/cadvisor.go:51-74 | skips, reports or accepts one series with its key and container ID |
| Cadvisor.SeriesSay | src/kubelet/metric/cadvisor.go:49-96 | the record under the key of a container is built from exactly the accepted series whose labels name it |
| Cadvisor.AcceptedIff | src/kubelet/metric/cadvisor.go:51-74 | a series is accepted iff its labels name a container other than POD, a namespace and a pod and its id holds a container ID; its key and ID by labels |
| Cadvisor.FaultsByLabels | src/kubelet/metric/cadvisor.go:51-91 | which error a series adds, by its labels |
| Cadvisor.FaultsConcat | src/kubelet/metric/cadvisor.go:43-91 | the errors of more series come after those of fewer |
| Cadvisor.FaultsOfOne | src/kubelet/metric/cadvisor.go:51-91 | the errors of one series are its own |
| Cadvisor.MeasurementsArrive | src/kubelet/metric/cadvisor.go:76-95 | the record of a container has, for every family but memory, the value of its last accepted series, absent iff none; the container ID of the first; the image of the last memory series with one |
| StatsSummary.GroupStatsSummary | src/kubelet/metric/metric.go:208-270 | pod, container, volume and node tables with the last record per key, every fault reported and skipped |
| StatsSummary.StatsSay | src/kubelet/metric/metric.go:234-267 | the record under the key of a container is that of the last stats item under its three names |
| StatsSummary.ItemCells | src/kubelet/metric/metric.go:158-267 | every number of the last stats of a container or volume arrives in its record, beside its three names |
| StatsSummary.PodCells | src/kubelet/metric/metric.go:116-156 | every number of the last stats of a pod arrives in its record |
| StatsSummary.ErrorsIff | src/kubelet/metric/metric.go:208-267 | the errors are those of an unnamed node, missing pod data, unidentified pods, and unnamed volumes and containers |
| Pods.FetchContainersData | src/kubelet/metric/pods.go:195-268 | one record per container ID, the last one for a repeated ID |
| Pods.Store | src/kubelet/metric/pods.go:96-107 | a record is stored complete, or pending until an IP is known |
| Pods.FillPending | src/kubelet/metric/pods.go:125-131 | completes every pending record and nothing else |
| Pods.FillGaps | src/kubelet/metric/pods.go:88-134 | every pod and container record ends with the first non-empty host IP, for every container order and with repeated IDs |
| Pods.FirstIPIsFirst | src/kubelet/metric/pods.go:99-101 | that IP is the first reported in list order, empty iff none is |
| Pods.PodsSay | src/kubelet/metric/pods.go:195-222 | the record under the key of a container is that of the last container listed under its three names |
| Pods.ContainerCells | src/kubelet/metric/pods.go:195-268 | the container table, metric by metric: names, node, node IP and everything else of the last container listed under the three names |
| Pods.PodCells | src/kubelet/metric/pods.go:88-134 | the pod table, metric by metric |
| KubeletPipeline.ContainerRecordExact | src/kubelet/grouper/group.go:62-98 | after merging all sources, the record of every container is exactly what pods, series and stats say under its own three names, in that precedence |
| KubeletPipeline.OneContainerPerRecord | src/kubelet/grouper/group.go:186-205 | every container record belongs to exactly one container, and each of its values comes from a pod container, series or stats item naming that container |
| KubeletPipeline.GroupKubelet | src/kubelet/scraper.go:92-110 | on success the groups are what was observed: every metric of every container (pods, else its last series, else its last stats), pod, volume and of the node |
| KubeletPipeline.ContainerCells | src/kubelet/grouper/group.go:62-98 | every metric of every merged container has the value of the pods, else of its last series, else of its last stats; it is there iff a pod lists it |
| KubeletPipeline.PodCells | src/kubelet/grouper/group.go:62-98 | the same of pods |
| KubeletPipeline.NodeCells | src/kubelet/grouper/group.go:62-169 | the same of the node: its stats, else what is derived |
| KubeletPipeline.ScrapeKubelet | src/kubelet/scraper.go:92-110 | the loops of all three sources and the merge together: aborts iff the node is unknown or the stats are faulty, and whatever is grouped is what was observed |
| KubeletPipeline.EntitiesStaySeparate | src/kubelet/scraper.go:92-122 | after merging pods, cAdvisor, stats and node data, no two raw entities get one entity ID and type |
| KubeletIdentity.KubeletRunsKeepIdentities | src/kubelet/scraper.go:111-116 | in every population run over the merged sources, no two created entities share ID and type |
| Network.SelectPrimaryInterface | src/kubelet/metric/network.go:218-240 | the choice does not depend on map order |
| Network.PrimaryIsLeast | src/kubelet/metric/network.go:215-240 | it is the alphabetically least physical interface and fails iff there is none |
| InterfaceNumbers.LowestNumberedIff | src/kubelet/metric/network.go:215-240 | for one prefix with decimal numbers, the lowest number n is chosen iff no number, cut to as many leading digits as n has, is below n |
| InterfaceNumbers.ZeroIsChosen | src/kubelet/metric/network.go:215-240 | interface 0 is chosen whenever there is one |
| InterfaceNumbers.TenBeforeTwo | src/kubelet/metric/network.go:237-239 | of eth2 and eth10, eth10 is chosen |
| Network.PhysicalIsNotCni | src/kubelet/metric/network.go:13-16 | the CNI exclusion never removes a physical interface |
| Network.PhysicalIff | src/kubelet/metric/network.go:14-14 | physical interfaces are eth, ens, eno or enp followed by a digit |
| Network.ResolveInterface | src/kubelet/metric/network.go:111-161 | routing table for nodes if it reports the metric, else the primary interface |
| Network.InterfaceCache.Put | src/kubelet/metric/interface_cache.go:34-39 | stores one entry |
| Network.InterfaceCache.Vacuum | src/kubelet/metric/interface_cache.go:42-48 | empties the cache |
| Network.Fetch | src/kubelet/metric/network.go:39-69 | own value, usable cached interface, else resolve and store; the cache after the call |
| Network.CachelessExact | src/kubelet/metric/network.go:39-161 | without a cache: own value, else the routing table's interface on nodes if it reports the metric, else the least physical one; and every error |
| Network.CacheIsHarmless | src/kubelet/metric/network.go:86-108 | any cache content: fails only if the cacheless lookup fails, with the same error, and returns only values in the current stats |
| Network.TransparentIff | src/kubelet/metric/network.go:51-67 | from empty on one snapshot, every sequence of lookups equals the cacheless results iff no lookup stores an interface that reports another one's metric while the interface resolved for it is missing, silent or reports something else |
| Network.CacheShows | src/kubelet/metric/network.go:51-67 | an input on which the cache shows: tx caches eth0, from which rx is then read instead of from the default wlan0 |
| Network.CompleteIsTransparent | src/kubelet/metric/network.go:39-69 | so it is when all interfaces report the queried metrics and entity IDs are unique across groups |
| ScrapeLoop.NamespaceInMemoryStore.Put | internal/discovery/namespace_cache.go:34-39 | stores one verdict |
| ScrapeLoop.NamespaceInMemoryStore.Vacuum | internal/discovery/namespace_cache.go:51-58 | empties the cache |
| ScrapeLoop.CachedNamespaceFilter.IsAllowed | internal/discovery/namespace_filter.go:154-163 | the cached verdict, else the underlying one, which is then cached |
| ScrapeLoop.Loop.Scrape | cmd/nri-kubernetes/main.go:171-202 | one iteration serves the requests in order, records the verdicts it returned, vacuums namespaces always and interfaces on every tenth count |
| ScrapeLoop.OneVerdictPerScrape | cmd/nri-kubernetes/main.go:172-197 | in every run, all lookups of a namespace in one scrape return one verdict, obtained in that scrape |
| ScrapeLoop.VacuumWithinTen | cmd/nri-kubernetes/main.go:199-202 | ten scrapes in a row contain an interface vacuum, even when the counter wraps |
| ScrapeLoop.EndOfScrape | cmd/nri-kubernetes/main.go:194-202 | the end of a scrape forgets all verdicts, and all interfaces iff the scrape's 64-bit number is a multiple of ten |
| ScrapeLoop.EntryStays | cmd/nri-kubernetes/main.go:199-202 | a cached interface stays until it is replaced or a tenth scrape ends |
| ScrapeLoop.RequestEffect | internal/discovery/namespace_filter.go:154-163 | a check leaves the underlying verdict if none was cached, a lookup leaves the interfaces as the cached fetch does |
| ScrapeLoop.EveryCheckIsAsked | cmd/nri-kubernetes/main.go:171-197 | the verdicts recorded in a scrape are those of its checks, in order |
| ScrapeLoop.EntriesAreRecent | cmd/nri-kubernetes/main.go:199-202 | in every run, a cached interface was stored less than ten scrapes ago, in the same block of ten |
| Connector.ConnectWithRetry | src/kubelet/client/connector.go:87-128 | returns the first success, or the first failure after the timeout, with the clock and the sleep asked for |
| Connector.NoEarlierSuccess | src/kubelet/client/connector.go:95-104 | no attempt before the one that ends the loop succeeded |
| Connector.RetryBounds | src/kubelet/client/connector.go:108-126 | at least 2 and at most ceil(T/B)+1 attempts, sleep at most T, end within T + 2D plus one late wake-up |
| Connector.TimeIsAccounted | src/kubelet/client/connector.go:95-126 | the clock is the attempts, their late wake-ups and the sleep |
| Connector.SleepIsBackoff | src/kubelet/client/connector.go:114-126 | a retry sleeps the backoff, or what is left of the timeout if that is less |
| Connector.ZeroBackoffNeverEnds | src/kubelet/client/connector.go:114-126 | with the default backoff of zero, instant failures are retried without bound |

## Left out

- HTTP clients, TLS, authentication, informers, listers, probing and cloud detection: I/O and foreign libraries.
- Text parsing into families and its concurrency: parsed families are inputs.
- Splitting the body into lines and joining the kept lines again: the filter works on the scanner's lines.
- Aliasing: the group and entity maps handed to the populator are heap objects, but one entity's metrics are values; the merged kubelet groups are values too, so that a group taken over whole stays shared with its source is not expressed.
- Concurrent access to the caches: the main loop is sequential, and the locks are not modelled.
- Populator.IntegrationPopulator: the steps inside the cluster sample are one event, and its error is not listed; value functions are pure, so that none of them writes to the groups it reads is taken for granted.
- Pods.FetchContainersData: image, resources, status and labels are opaque extra metrics, except that they do not touch the identifying fields.
- Cadvisor.GroupContainers: the pattern match that extracts a container ID is a parameter.
- EntityKeys.PodIdRoundTrip: a namespace field that is not text is treated as missing.
- EntityKeys.EntityIdIff: a namespace field that is not text is treated as missing.
- Counting.CountsAsZeroIff: names are quoted in error texts without escaping special characters.
- InterfaceNumbers.LowestNumberedIff: interfaces with several prefixes, text after the number or leading zeros have no lowest number to compare with.
- KsmIdentity.KsmRunsKeepIdentities: pending pods and custom type names are covered by conditions on the generators; the table of generators itself is configuration.
- NamespaceFilter.IsAllowed: what a selector lists is an input.
- Query.Execute: the printed form of a value is a parameter.
- InheritSpecificLabelValuesFrom, FromSummary, GroupEntityMetricsBySpec, the spec and query tables, transform functions: they would only add easier members.
- Config loading, label-selector parsing, route file reading, the TTL store, endpoint discovery, publishing.
