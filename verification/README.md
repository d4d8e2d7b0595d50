# AEM entity-model generator: a Dafny model and its proofs

The generator under `avdecc/` turns a declarative specification of an AVDECC end station into a
flat descriptor ROM with a `(type, index, base, length)` directory, a two-level direct-indexed
view of that directory, a structural rule plus exceptions for the SET/GET_NAME table, per-port
audio-map serving tables, talker map constants, and finally an identity-baked image document.
The code checks itself with run-time gates: a fast form is compared with the slow form it replaces
on a finite fence of probes, and layout claims are asserted while the model is built. This project
states those claims for every input and proves them.

Two smaller kernels with properties of the same kind are modelled as well: the cyclic object-graph
walk of the bare-metal ownership scan, and the byte-level source repairer with the scanner it
answers to.

## What is proved, in short

- The finite probe fence of the two-level directory is exact: the gate passes if and only if the
  two lookups agree on every natural (type, index), for any table and any directory. The probes at
  index 0xFFFF and type 0xFFFF are not needed for this.
- The name fence is exact if and only if no exception key is stray; a stray exception that passes
  the gate is exhibited. What `named_structure` computes is never stray.
- `two_level_directory` accepts exactly the non-empty directories with one zero-based ascending run
  per type and types below 256, and the append order of every specification is such a directory.
- `build_model` succeeds exactly on the specifications `Buildable` describes, which speaks of the
  specification alone: packable numbers, named clusters, an output, both input kinds, listener and
  talker ports the fabric can address, conforming maps, and a ROM length given in closed form;
  `BuildableExactly` spells that out over numbers, lists and format fields. Neither lookup gate ever
  refuses one. NAME_MASK holds exactly the named types present, NAME_EXC exactly ENTITY's two names.
- Every descriptor is laid out octet by octet as clause 7.2 of IEEE 1722.1-2021 places its fields: in
  the ROM, in the identity-baked image and in each document row, of which there is one per object of
  the specification and no other.
- The audio-map gate is sound and complete, with the asymmetric duplicate rule of clause 7.2.19 of
  IEEE 1722.1-2021 and its pigeonhole consequences. Following the emitted tables into the ROM,
  before or after identity baking, reads exactly the addressed port's own rows. The stream channel
  is the only field the sixteen-bit encoding can lose, and only where a deviation is recorded. Which
  bits of a format are its width, which rows collide and which deviate is stated on the raw words.
- Identity baking writes the advertised identity and nothing else; no other descriptor and no name
  moves, and every SET write-back address still holds the field it is for.
- The document of a built model is refused only for an unresolved identity span or a stated name
  whose first 64 octets are no text. Its rows, in order, are the baked image; the names of one type
  lie at a stride; a listed name is the specification's own exactly when that fits 64 octets, holds
  no NUL and decodes.
- An independent decoder that accepts a packed image of that document reads back the
  specification's counts, streams, ports, audio maps, sampling rates, clock domain and identity.
- A dynamic output port whose overlay puts its primary segment on loopback wakes as an echo of the
  stream it receives.
- The graph walk terminates on every cyclic graph and finds a violation exactly when one is
  reachable along any path, where a violating entry is described by its own characters, blanks and case
  variants included. The repairer leaves a clean, stable file exactly when its input, behind a
  leading BOM, holds no second BOM and no CR followed by blanks that run into a line ending or the
  end of the file; a lone CR needs a second pass.

## Layout

| file | component |
|---|---|
| `Wrappers`, `Bits`, `Sequences`, `Octets` | results, bit masks, finite sets and sequences, big-endian fields |
| `TwoLevel`, `NameSplit` | the two lookups and their gates |
| `Descriptors`, `DescriptorFields`, `Layouts` | the constructors, the independent decoder, their round trips, and every field at its octet |
| `AemSpec`, `Assemble`, `BuildModel` | the specification, the append order and ROM, the whole model |
| `AudioMaps`, `MapLaws`, `TalkerMap`, `Loopback`, `PowerOn` | audio-map gates and tables and what they mean on raw formats and rows, talker constants, loopback walk, power-on routes |
| `Identity`, `NameTable`, `Document` | identity baking, the flat name table, the image document |
| `MapServing`, `Writebacks`, `NameMask`, `Buildability`, `ModelDocument`, `SpecNames`, `ModelLayout`, `EndToEnd` | theorems that span those components |
| `SmallStation` | a smallest station, built, baked, documented and audited, so those theorems speak of something |
| `ImageAudit`, `ImageLaws` | the decoder of a packed image, and its index and header on raw octets |
| `ConfigWalk`, `Hygiene` | the two kernels outside the generator |

Python functions made of expressions are functions here; loops that update variables are methods
with invariants, proved against a specification function or a predicate; the two containers the
duplicate rule mutates are the fields of a class. A `raise`, an assertion, an index, key or struct
error is `Err`. Integers the source leaves unbounded are naturals, and the masking of `be16` and
`be64` and the refusal of `be32` are written out. `{:induction false}` marks lemmas whose
induction, where there is any, is spelled out.

Assumptions: the image format's NAME_BYTES is 64 and its `name_bytes` zero-pads to 64 octets, as
`cstr` does (the packer's own module is not part of this model). A name is its encoded bytes, and
whether bytes are valid UTF-8 is a parameter.

## Model

| member | source | states |
|---|---|---|
| `TwoLevel.TwoLevelDirectory` | avdecc/aem_assemble.py:37-79 | Accepts exactly the non-empty directories with one contiguous zero-based ascending run per type and types below 256; the result is the power-of-two table of exactly those runs, zero for absent types |
| `TwoLevel.Level1IsExact` | avdecc/aem_assemble.py:82-90 | Such a table answers every natural (type, index), hit or miss, as the linear scan does |
| `TwoLevel.LinearScan` | avdecc/aem_assemble.py:99-105 | The scan loop, in which the last matching row wins |
| `TwoLevel.LinearMeaning` | avdecc/aem_assemble.py:99-105 | It misses exactly the keys no row carries, and a hit is some row carrying the key |
| `TwoLevel.FenceIsExact` | avdecc/aem_assemble.py:93-112 | Agreement on each row, its successor index and index 0 of each table slot is agreement on every key, for any table and directory |
| `TwoLevel.CheckTwoLevel` | avdecc/aem_assemble.py:93-119 | The gate passes if and only if the two lookups agree on every natural key |
| `NameSplit.NameFenceIsExact` | avdecc/aem_assemble.py:155-187 | Agreement on the probes plus no stray exception is equivalent to agreement on every (type, index, name_index) |
| `NameSplit.StrayExceptionPassesTheFence` | avdecc/aem_assemble.py:174-183 | A concrete stray exception passes every probe although the split is wrong |
| `NameSplit.CheckNamed` | avdecc/aem_assemble.py:155-187 | Passes exactly when the probes agree; with no stray exception, exactly when all keys agree |
| `NameSplit.SplitIsExact` | avdecc/aem_assemble.py:129-134 | On a level-1 view, the structural split reproduces NAMED on all keys if and only if no key has conflicting addresses |
| `NameSplit.StructuralExactly` | avdecc/aem_assemble.py:141-146 | A type is structural exactly when it has an entry, none but object_names at base + 4, and each index below CNT once and no other |
| `NameSplit.NamedStructure` | avdecc/aem_assemble.py:122-152 | Whatever is accepted answers like the flat table everywhere; its mask holds exactly the types NAMED lists throughout, at name_index 0 and base + 4, each of the CNT indices once; its exceptions are exactly the other types' entries, type by type; with every named object present it refuses only a key with conflicting addresses |
| `NameSplit.LastEntryWins` | avdecc/aem_assemble.py:174 | Of a repeated NAMED key the dict keeps the last address |
| `NameSplit.FirstEntryWins` | avdecc/aem_assemble.py:165-167 | The exception scan answers with the first matching entry |
| `NameSplit.DistinctNamesAreConsistent` | avdecc/aem_assemble.py:174 | Distinct NAMED keys never conflict |
| `NameMask.SplitOfModel` | avdecc/aem_assemble.py:140-152 | In every built model NAME_MASK has exactly the bits of the named types its directory has, and NAME_EXC is exactly ENTITY's two names at 48 and 180 |
| `Octets.Be64Reads` | avdecc/aem_descriptors.py:192-194 | The eight octets read back the value modulo 2^64 |
| `AemSpec.ChannelsOfFormat` | avdecc/aem_assemble.py:505-508 | A stream is as wide as the ten channel bits above bit 22 of its reset format, whatever the other fields hold |
| `Descriptors.EntityBytes` | avdecc/aem_descriptors.py:197-219 | 312 octets that open with their own type and index, with entity_name at 48 and group_name at 180; `Layouts.EntityIsLaid` states every other field |
| `Descriptors.AvbInterfaceBytes` | avdecc/aem_descriptors.py:329-426 | 102 octets, own type and index, object_name at 4 |
| `Descriptors.ClockSourceBytes` | avdecc/aem_descriptors.py:471-495 | 86 octets, own type and index, object_name at 4 |
| `Descriptors.ControlIdentifyBytes` | avdecc/aem_descriptors.py:517-554 | 113 octets, own type and index, object_name at 4 |
| `Descriptors.LocaleBytes` | avdecc/aem_descriptors.py:556-563 | 72 octets, own type and index |
| `Descriptors.StringsBytes` | avdecc/aem_descriptors.py:565-577 | 452 octets, own type and index |
| `Descriptors.AudioClusterBytes` | avdecc/aem_descriptors.py:612-646 | 90 octets, own type and index, object_name at 4 |
| `Descriptors.NamesItselfReads` | scripts/audit_pp_descriptors.py:66 | The first two fields of a descriptor body read back its type and index |
| `Layouts.EntityIsLaid` | avdecc/aem_descriptors.py:197-219 | Each static ENTITY field at its offset: names at 48 and 180, string references 2 and 0 at 112, firmware at 116, serial at 244, one configuration at 308 |
| `Layouts.InterfaceIsLaid` | avdecc/aem_descriptors.py:343-426 | Each static AVB_INTERFACE field at its offset: name, flags, the gPTP dataset octet by octet, port number, no controls |
| `Layouts.ClockSourceIsLaid` | avdecc/aem_descriptors.py:479-495 | Name, flags 2, type, zero identifier, location type and index at their offsets |
| `Layouts.ControlIsLaid` | avdecc/aem_descriptors.py:524-554 | Each IDENTIFY field at its offset: latencies, the control type word, reset time 0, values offset and the value record |
| `Layouts.LocaleIsLaid` | avdecc/aem_descriptors.py:556-563 | Identifier at 4, one STRINGS at 68, base 0 at 70 |
| `Layouts.StringsIsLaid` | avdecc/aem_descriptors.py:565-577 | The seven strings in their order |
| `Layouts.PortIsLaid` | avdecc/aem_descriptors.py:595-610 | Clock domain, flags, no controls, and the cluster and map runs, none for the maps of a dynamic port |
| `Layouts.ClusterIsLaid` | avdecc/aem_descriptors.py:612-646 | Name, signal type, latencies of 500, one channel, format 0x40 at their offsets |
| `Layouts.ConfigurationIsLaid` | avdecc/aem_descriptors.py:221-243 | Name, localized description 1, and the eight type and count pairs at their offsets |
| `Layouts.AudioUnitIsLaid` | avdecc/aem_descriptors.py:245-270 | Name, clock domain, port counts, zeros, current rate and every rate at their offsets |
| `Layouts.StreamIsLaid` | avdecc/aem_descriptors.py:279-327 | Name, flags, current format, zeros for backups, buffer, redundancy, timing and every format at their offsets |
| `Layouts.ClockDomainIsLaid` | avdecc/aem_descriptors.py:497-515 | Name, source index 0 and the list 0 to n - 1 at their offsets |
| `Layouts.MapIsLaid` | avdecc/aem_descriptors.py:648-660 | Each mapping's four fields eight octets apart behind the header |
| `Layouts.StreamRefused` | avdecc/aem_descriptors.py:320-323 | Refused exactly without formats, with a buffer past 2^32 - 1, or with bit 13 of the flags set |
| `Descriptors.DConfiguration` | avdecc/aem_descriptors.py:221-243 | The loop writes the bytes whose decoding `ConfigurationRoundTrip` proves |
| `Descriptors.DAudioUnit` | avdecc/aem_descriptors.py:245-270 | The loop writes the bytes whose decoding `AudioUnitRoundTrip` proves, refusing a rate past 32 bits |
| `Descriptors.DStream` | avdecc/aem_descriptors.py:279-327 | The loop writes the bytes whose decoding `StreamRoundTrip` proves, refusing no formats, a buffer past 32 bits and a timing flag |
| `Descriptors.DClockDomain` | avdecc/aem_descriptors.py:497-515 | The loop writes the bytes whose decoding `ClockDomainRoundTrip` proves |
| `Descriptors.DAudioMap` | avdecc/aem_descriptors.py:648-660 | The loop writes the bytes whose decoding `AudioMapRoundTrip` proves |
| `DescriptorFields.StreamRoundTrip` | scripts/audit_pp_descriptors.py:98-105 | Decoding a stream descriptor recovers flags, current format, every format in order, buffer and offsets, for all list lengths (the count modulo 2^16) |
| `DescriptorFields.StreamFitsAtMost46Formats` | avdecc/aem_descriptors.py:272-276 | A stream descriptor fits 508 octets exactly when it has at most 46 formats |
| `DescriptorFields.AudioUnitRoundTrip` | scripts/audit_pp_descriptors.py:91-97 | Decoding an AUDIO_UNIT recovers the current rate, every rate and the port counts |
| `DescriptorFields.ConfigurationRoundTrip` | scripts/audit_pp_descriptors.py:86-90 | Decoding a CONFIGURATION recovers the eight descriptor counts |
| `DescriptorFields.ClockDomainRoundTrip` | scripts/audit_pp_descriptors.py:123-126 | Decoding a CLOCK_DOMAIN recovers the identity list of its sources |
| `DescriptorFields.AudioMapRoundTrip` | scripts/audit_pp_descriptors.py:115-119 | Decoding an AUDIO_MAP recovers every mapping, each field modulo 2^16 |
| `DescriptorFields.StreamPortRoundTrip` | scripts/audit_pp_descriptors.py:111-113 | Decoding a STREAM_PORT recovers its cluster and map runs |
| `Assemble.RomImage` | avdecc/aem_assemble.py:301-322 | The loop builds the ROM and directory the lemmas below describe, refusing exactly a ROM that with its 64-octet tail passes 64 KiB |
| `Assemble.DirectoryTilesRom` | avdecc/aem_assemble.py:301-307 | The spans tile the ROM from 0 to its end without gap or overlap, each slice being its descriptor's bytes |
| `Assemble.SpansAreOrdered` | avdecc/aem_assemble.py:301-307 | A later descriptor's span starts after an earlier one's end |
| `Assemble.AppendOrderIsAddressable` | avdecc/aem_assemble.py:41-46 | The append order of every specification gives one contiguous zero-based ascending run per type, with types below 256 |
| `Assemble.KeysAreUnique` | avdecc/aem_assemble.py:562-564 | No two rows of such a directory carry one key |
| `Assemble.BaseOfRow` | avdecc/aem_assemble.py:562-564 | Looking up any row's key finds that row's base and span |
| `Assemble.BaseOfMeaning` | avdecc/aem_assemble.py:562-564 | The lookup fails exactly for a key no row carries |
| `Assemble.RomLength` | avdecc/aem_assemble.py:301-322 | The ROM is exactly as long as the specification's counts say, in closed form |
| `AudioMaps.WidestIsTheMaximum` | avdecc/aem_maps.py:224-233 | The widest channel count is attained by an audio format and bounds all of them; it is absent exactly when no format carries channels |
| `AudioMaps.RowBounds` | avdecc/aem_maps.py:179-242 | A mapping passes exactly within its port's clusters, channel 0, an existing stream with an audio format; it deviates exactly past the widest format, which `MapLaws.PastWidestExactly` states on the format words |
| `AudioMaps.Ledger.Record` | avdecc/aem_maps.py:245-280 | Refuses an input's repeated cluster channel or an output's repeated stream channel, and otherwise updates only the container of its direction |
| `AudioMaps.CheckRows` | avdecc/aem_maps.py:306-313 | One port's rows pass exactly when all are bounded and none repeats a key; the deviations are exactly those past the widest format, in order |
| `AudioMaps.ServePort` | avdecc/aem_maps.py:294-322 | One port passes exactly when bounded and unrepeated, and is tabulated with its own map's address, size and offset, zeros when dynamic |
| `AudioMaps.DirectionTables` | avdecc/aem_maps.py:283-323 | Accepts exactly the conforming sides: inputs unique per port on cluster channel, outputs unique across all ports on stream channel; DEVIATIONS is exactly the rows past the widest format, in order (`MapLaws.DeviationsExactly` on the format words) |
| `AudioMaps.StaticMapTables` | avdecc/aem_maps.py:326-409 | Both directions together, at most 32 ports each, padded to one zero row when there is no port |
| `AudioMaps.MapsNeedNoMore` | avdecc/aem_maps.py:326-409 | In a directory that holds every map, the gate accepts exactly the specifications whose ports are bounded and unrepeated; no address can be missing |
| `AudioMaps.InputMapFitsItsPort` | avdecc/aem_maps.py:253-265 | An accepted input map has at most as many mappings as its port has clusters |
| `AudioMaps.OutputMapsFitTheStreams` | avdecc/aem_maps.py:266-280 | Without deviations, all accepted output maps together have at most the sum of the streams' widest channel counts |
| `MapLaws.FmtChannelsOfFields` | avdecc/aem_maps.py:28-32 | A format of subtype 2 is as wide as its ten channel bits, any other has no width, whatever the remaining fields hold |
| `MapLaws.FmtChannelsExactly` | avdecc/aem_maps.py:28-32 | A format has c channels exactly when it is an AAF word with c in its channel field |
| `MapLaws.WidthsAgree` | avdecc/aem_assemble.py:505-508 | The talker map and the gate read the same width from an AAF format |
| `MapLaws.PastWidestExactly` | avdecc/aem_maps.py:224-242 | A row deviates exactly when its stream has an audio format and its channel reaches the width of every one |
| `MapLaws.MappingsAreTheRows` | avdecc/aem_maps.py:294-313 | The mappings of a side are exactly the rows of its static ports' own maps, each with its port and map |
| `MapLaws.DeviationsExactly` | avdecc/aem_maps.py:294-322 | DEVIATIONS lists exactly the static ports' rows whose channel no advertised format has |
| `MapLaws.StereoTalkerDeviates` | avdecc/aem_maps.py:107-112 | Eight clusters on a stereo stream: channels 2 to 7 are the deviations |
| `MapLaws.InputsExactly` | avdecc/aem_maps.py:253-265 | Inputs are accepted exactly when no two rows of one port share a cluster channel |
| `MapLaws.OutputsExactly` | avdecc/aem_maps.py:266-280 | Outputs are accepted exactly when no two rows of all ports share a stream channel |
| `MapLaws.MapsAcceptableExactly` | avdecc/aem_maps.py:326-409 | The whole gate as a condition on port numbers, mapping rows and format fields |
| `Identity.ApplyIdentity` | avdecc/gen_aemi_image.py:212-236 | The splice loop, refusing exactly an unresolved or mis-sized span that is not listed as unbaked |
| `Identity.BakingFrame` | avdecc/gen_aemi_image.py:219-236 | Baking disjoint in-bounds spans keeps the length, reads back each value and touches no other byte |
| `Identity.OverlaysAreApart` | avdecc/aem_assemble.py:325-347 | The model's overlay spans are in bounds and pairwise disjoint |
| `Identity.IdentityTouchesOnly` | avdecc/aem_assemble.py:325-347 | Baking a model changes only the listed identity bytes of ENTITY and AVB_INTERFACE |
| `Identity.IdentityKeepsSpan` | avdecc/gen_aemi_image.py:219-236 | Any span clear of those bytes keeps its contents |
| `Identity.SpansReadBack` | avdecc/gen_aemi_image.py:219-236 | Every baked span of the model reads back its value |
| `Identity.BakedEntityReads` | scripts/audit_pp_descriptors.py:78-85 | Decoding the baked ENTITY yields every identity number the decoder reads: entity and model ids, capabilities, talker and listener counts and capabilities, current configuration |
| `Identity.BakedInterfaceReads` | scripts/audit_pp_descriptors.py:106-108 | Decoding the baked AVB_INTERFACE yields its MAC and clock identity |
| `NameTable.NameRoundTrip` | avdecc/gen_aemi_image.py:270-286 | A name survives its inline field exactly when it fits 64 octets, holds no NUL and decodes |
| `NameTable.NamedSlots` | avdecc/gen_aemi_image.py:248-267 | Refused exactly for a name without a descriptor or a repeated (type, index, semantic); otherwise the dict holds exactly the entries |
| `NameTable.AppendNames` | avdecc/gen_aemi_image.py:324-338 | One descriptor's names are appended exactly when each is at its layout address, inside the descriptor, and text |
| `NameTable.NameType` | avdecc/gen_aemi_image.py:306-338 | One type is refused exactly when it mixes named and unnamed descriptors or names one badly; otherwise its blocks join the table in index order |
| `NameTable.BuildNameTable` | avdecc/gen_aemi_image.py:289-339 | Refused exactly when a type is mixed or a named descriptor is not well named; the blocks tile the table in key order, each read from its own field |
| `NameTable.EachNameOnce` | avdecc/gen_aemi_image.py:323-338 | Two (key, semantic) pairs share a table row exactly when they are the same pair |
| `NameTable.StridedAddressing` | avdecc/gen_aemi_image.py:375-377 | Along a fully named zero-based type, first_name(i) is first_name(0) plus i times the stride, 2 for ENTITY and 1 otherwise |
| `Document.DictSize` | avdecc/gen_aemi_image.py:239-245 | The directory dict has as many keys as the directory has rows exactly when no key repeats |
| `Document.ModelToDocument` | avdecc/gen_aemi_image.py:360-391 | Refused exactly for an unresolved span, a repeated key, a misplaced, missing or non-text name; accepted, the rows carry the baked slices, every name re-encodes to its own row's inline octets, each name is owned by exactly one row, and the rows index one key-ordered table without gaps |
| `ImageAudit.SlotsAreNumbered` | scripts/audit_pp_descriptors.py:54-72 | Over repeated runs of unequal length, each slot's index is the number of slots of its key before it |
| `ImageAudit.NumberedIsInjective` | scripts/audit_pp_descriptors.py:54-72 | No two slots share configuration, type and index |
| `ImageAudit.NumberedIsOnto` | scripts/audit_pp_descriptors.py:54-72 | Every index below a key's count occurs |
| `ImageAudit.DecodeSlot` | scripts/audit_pp_descriptors.py:62-71 | A slot is accepted exactly when it lies in the image, its body names its key and its fields decode |
| `ImageAudit.PackedRows` | scripts/audit_pp_descriptors.py:46-73 | Accepted exactly when the header holds and every announced slot decodes; the rows are those slots in order with their fields |
| `ImageAudit.AssertPackedBytes` | scripts/audit_pp_descriptors.py:178-192 | Passes exactly when every announced slot holds its document row's bytes |
| `ImageAudit.AuditReadsTheDocument` | scripts/audit_pp_descriptors.py:178-192 | With both accepting, the decoded fields are those of the document row's own bytes |
| `ImageLaws.RowAtReads` | scripts/audit_pp_descriptors.py:57-59 | An index row is read from its sixteen octets field by field, and refused exactly when truncated |
| `ImageLaws.SlotIsOfARun` | scripts/audit_pp_descriptors.py:54-72 | Every slot is descriptor i of some run k, at base plus i strides, behind the slots of the runs before it |
| `ImageLaws.HeaderExactly` | scripts/audit_pp_descriptors.py:46-53 | The header is accepted exactly when it opens with AEMI and version 1, states the image's own length, and its eight words sum to all ones |
| `ImageLaws.OneChangedWordIsRefused` | scripts/audit_pp_descriptors.py:52-53 | A change confined to one word of an accepted header is refused |
| `ImageLaws.StreamReads` | scripts/audit_pp_descriptors.py:98-105 | For any field values the decoder reports each stream field from its own offset |
| `ImageLaws.UnitPortsRead` | scripts/audit_pp_descriptors.py:91-97 | Port counts and bases of an AUDIO_UNIT come from their own offsets |
| `ImageLaws.InterfaceReads` | scripts/audit_pp_descriptors.py:106-108 | So do an AVB_INTERFACE's port number, MAC, clock identity and control count |
| `ImageLaws.ControlReads` | scripts/audit_pp_descriptors.py:120-122 | And a CONTROL's type, reset time and values offset |
| `TalkerMap.SlotBases` | avdecc/aem_assemble.py:505-508 | The running sum is each stream's first pair slot; `OwnedSlotCarriesAChannel` and `SlotBaseIsASum` say which slots those are |
| `TalkerMap.OdMapTables` | avdecc/aem_assemble.py:472-551 | Accepted exactly with dynamic inputs, a format per stream, and usable templates and stream index per port; the tables are then coherent, each port's templates, routes, stream, slots and width in its own place |
| `TalkerMap.PortRowIsStated` | avdecc/aem_assemble.py:541-551 | PSTR is the stated stream or the port's own index, and PDYN, PCLS, PCBASE and SCH are that port's and that stream's |
| `TalkerMap.TemplatesAreStated` | avdecc/aem_assemble.py:511-529 | Templates are the stated ones, one per cluster; only a static port may state none, and then feeds nothing |
| `TalkerMap.TemplateOfCluster` | avdecc/aem_assemble.py:511-529 | CSRC at PCBASE of port j plus co is that port's template for cluster co |
| `TalkerMap.ArmedRouteIsLive` | avdecc/aem_assemble.py:533-539 | An INIT entry is valid exactly inside its stream and its port and on a valid template of its own half, or the tone; it points at its cluster, an invalid one at 0 |
| `TalkerMap.SlotHasOneOwner` | avdecc/aem_assemble.py:504-508 | Pair-slot intervals of different streams are disjoint |
| `TalkerMap.SlotHasAnOwner` | avdecc/aem_assemble.py:504-508 | The intervals cover a prefix of the slots without a gap |
| `TalkerMap.OwnedSlotCarriesAChannel` | avdecc/aem_assemble.py:504-508 | A stream owns exactly the slots that carry one of its channels, two to a slot |
| `TalkerMap.SlotsFollow` | avdecc/aem_assemble.py:545-549 | SLOTB of stream 0 is 0, and the next stream's is half the channels further, rounded up |
| `TalkerMap.SlotBaseIsASum` | avdecc/aem_assemble.py:505-508 | So is that of any stream, ports on it or not |
| `TalkerMap.PortSlotsAreDisjoint` | avdecc/aem_assemble.py:545-549 | Two ports on different streams never share a pair slot |
| `Loopback.OutClusterSources` | avdecc/aem_specs.py:113-185 | Refused exactly for a dynamic port with no pool, an AAF input without formats or an unsupported role; one template per pool cluster, each its segment's at its own offset |
| `Loopback.TemplateByRole` | avdecc/aem_specs.py:144-182 | Role by role, what cluster n reads: front-end channel n below 8, the tone, received channel, or nothing |
| `Loopback.LoopbackReadsOwnStream` | avdecc/aem_specs.py:130-132 | Loopback cluster n of port j reads stream j channel n, as far as that stream is wide |
| `Loopback.LoopbackWraps` | avdecc/aem_specs.py:169-175 | Past its stream a port reads on through the received space and wraps; without an own stream it starts at 0, without any it names channel n of stream 0 |
| `Loopback.LoopbackChannelIsReceived` | avdecc/aem_specs.py:170-173 | The wrapped index always names a channel some AAF input carries |
| `Loopback.WindowNeverRepeats` | avdecc/aem_specs.py:170-173 | Clusters fewer than the receive channels apart read different channels |
| `Loopback.WindowReadsEvery` | avdecc/aem_specs.py:170-173 | Any window of that many clusters reads every receive channel |
| `Loopback.ReceivedMembers` | avdecc/aem_specs.py:133-138 | The receive space holds exactly the channels of AAF inputs |
| `Loopback.ReceivedDistinct` | avdecc/aem_specs.py:133-138 | Each of them once |
| `PowerOn.IdentityOffsetIsPrimary` | avdecc/aem_specs.py:101-110 | The identity image starts at the declared offset of the first segment with the primary role, which in a contiguous pool is that segment's first cluster; without one it starts at 0 |
| `PowerOn.PrimaryLoopbackEchoes` | avdecc/aem_assemble.py:530-539 | For a port read from its overlay whose contiguous pool has a loopback primary segment, stream channel c of port j wakes armed exactly when the gateware has the lane and j is below 8, and reads received stream j channel c |
| `PowerOn.PrimaryPhysicalIsWired` | avdecc/aem_assemble.py:530-539 | A primary physical segment arms every channel of the stream on the front-end channel of the same number |
| `PowerOn.PrimaryPilotSounds` | avdecc/aem_assemble.py:530-539 | A primary pilot segment arms every channel on the tone |
| `PowerOn.PrimaryVirtualIsSilent` | avdecc/aem_specs.py:180-182 | A port read from its overlay whose primary segment is virtual arms none of that segment's channels |
| `BuildModel.DynMapMeaning` | avdecc/aem_assemble.py:426-443 | Accepted exactly when each dynamic port ends at or below 64, the stated pages agree and are at most 9, and some dynamic port, if there is one, has clusters or states a page; the page is the stated one, else the widest dynamic port capped at 8, and the key space is the tight bound of the dynamic ports' clusters |
| `BuildModel.NamedAddressesAreSound` | avdecc/aem_assemble.py:369-383 | The NAMED keys are distinct and each has its descriptor |
| `BuildModel.WritebackNeedsAnOutput` | avdecc/aem_assemble.py:350-366 | The write-back table exists exactly when there is an output stream |
| `BuildModel.DescriptorsNameThemselves` | scripts/audit_pp_descriptors.py:66 | Every descriptor of every specification opens with its own key and has room for the name its type carries |
| `BuildModel.LocatedApart` | avdecc/aem_assemble.py:301-307 | Descriptors with different keys occupy disjoint spans |
| `BuildModel.IdentityDescriptorsLocated` | avdecc/aem_assemble.py:325-329 | ENTITY opens the ROM and AVB_INTERFACE lies behind it, inside the ROM |
| `BuildModel.Lookups` | avdecc/aem_assemble.py:586-592 | Neither gate refuses what its own constructor made of an addressable directory, and both lookups are exact |
| `BuildModel.MapTables` | avdecc/aem_assemble.py:576-584 | The three map tables are refused exactly by conditions on the specification: the listener's, the talker's and the audio-map gate's |
| `BuildModel.BuildImage` | avdecc/aem_assemble.py:559-567 | Refused exactly when a number does not pack, a cluster list does not name its clusters, or the closed-form ROM length with its tail passes 64 KiB |
| `BuildModel.Build` | avdecc/aem_assemble.py:554-607 | A model is built exactly from the buildable specifications, a condition on the specification alone, and is then the model of that specification |
| `Buildability.BuildableExactly` | avdecc/aem_assemble.py:554-607 | The buildable specifications over numbers, list lengths, port fields, mapping rows and format fields alone |
| `Buildability.TalkerFitsExactly` | avdecc/aem_assemble.py:472-529 | The talker tables accept exactly a dynamic input behind any dynamic output, formats on every output, and templates and a stream index that fit each port |
| `SmallStation.StationIsBuildable` | avdecc/aem_assemble.py:554-607 | A station with one AAF and one CRF input, one output, a static and a dynamic input port and a dynamic output port is buildable |
| `SmallStation.BuildStation` | avdecc/aem_assemble.py:554-607 | Building and baking that station succeeds, and both channels of its output wake as echoes of input stream 0 |
| `SmallStation.AuditStation` | scripts/audit_pp_descriptors.py:46-73 | Its document is produced, an image of its AUDIO_MAP passes both audit gates, and the decoded row is the specification's one mapping |
| `MapServing.BakingKeepsTheOthers` | avdecc/gen_aemi_image.py:219-236 | Every descriptor but ENTITY and AVB_INTERFACE sits unchanged behind its own base after baking |
| `MapServing.AcceptedRowIsExact` | avdecc/aem_maps.py:179-242 | Of an accepted row, sixteen-bit masking can lose only the stream channel, exactly when it reaches 2^16, and never where no deviation is recorded |
| `MapServing.MapsAreServed` | avdecc/aem_maps.py:283-323 | For every built model, static port k and row r, the four fields at ADDR + MOFF + 8r of the ROM, before or after baking, are row r of that port's own base_map, inside that map's span, with only a stream channel past 2^16 masked, and nothing masked where no deviation is recorded |
| `Writebacks.WritebacksHitTheirFields` | avdecc/aem_assemble.py:350-366 | Every SET write-back address of a built model is its descriptor's base plus the field's offset, and holds the field it is for, before and after baking: current rate, current formats, clock source index, IDENTIFY value, each AUDIO_MAP |
| `ModelDocument.WellNamedIffText` | avdecc/gen_aemi_image.py:306-338 | A laid-out directory's names are all well placed, so only their text can be refused |
| `ModelDocument.NamesDoNotMove` | avdecc/gen_aemi_image.py:212-236 | No inline name moves under identity baking |
| `ModelDocument.BuiltModelsAreDocumentable` | avdecc/gen_aemi_image.py:360-391 | A built model is documented exactly when its identity spans are resolved and its inline names are text: no key repeats, no name is misplaced, missing, mixed or moved |
| `ModelDocument.RowsAreStrided` | avdecc/gen_aemi_image.py:375-377 | In a built model's document the row of (t, i) starts its names at those of (t, 0) plus i times the stride |
| `SpecNames.DescriptorsCarryTheirNames` | avdecc/aem_assemble.py:197-298 | Every named descriptor of a specification holds, at its layout offset, the 64-octet field of that specification name |
| `SpecNames.ModelHoldsItsNames` | avdecc/aem_assemble.py:301-307 | Every named row of a built model's ROM holds the field of its own specification name |
| `SpecNames.NamesAreTextAsStated` | avdecc/gen_aemi_image.py:270-286 | The ROM's names pass the text test exactly when every stated name does: no nonzero octet behind the first NUL of its first 64, and what precedes it decodes |
| `SpecNames.DocumentableAsStated` | avdecc/gen_aemi_image.py:360-391 | A built model is documented exactly when its identity spans are resolved and every name its specification states is text |
| `SpecNames.DocumentListsTheNames` | avdecc/gen_aemi_image.py:289-339 | The document lists, under the object's own key, the text of each stated name; it is the stated name itself exactly when that fits 64 octets, holds no NUL and decodes |
| `ModelLayout.DescriptorsAreLaid` | avdecc/aem_assemble.py:197-298 | Every descriptor of every specification is laid out, field by field, as the object of its key |
| `ModelLayout.RowsAreTheObjects` | avdecc/aem_assemble.py:197-298 | A built model's directory has exactly one key per object of its specification |
| `ModelLayout.ModelRomIsLaid` | avdecc/aem_assemble.py:301-307 | Each row of the ROM spans its own object, laid out as specified |
| `ModelLayout.BakedModelIsLaid` | avdecc/gen_aemi_image.py:212-236 | So it does after identity baking, the baked fields aside |
| `ModelLayout.ModelDocumentIsLaid` | avdecc/gen_aemi_image.py:342-357 | And in every row of the document |
| `EndToEnd.DocumentCarriesTheImage` | avdecc/gen_aemi_image.py:342-357 | The document rows' bytes, concatenated in order, are the baked image |
| `EndToEnd.DocumentServes` | avdecc/gen_aemi_image.py:342-357 | Looking a descriptor's key up in the document finds the baked image's octets at that descriptor's base |
| `EndToEnd.ModelServesKept` | avdecc/gen_aemi_image.py:342-357 | For every descriptor but ENTITY and AVB_INTERFACE those are the bytes the specification packs |
| `EndToEnd.DocumentHoldsIdentity` | avdecc/gen_aemi_image.py:342-357 | The two rows left hold the baked identity octets |
| `EndToEnd.AuditRecoversStream` | scripts/audit_pp_descriptors.py:98-105 | The audited row of a built model's stream decodes to the specification's formats, current format, buffer and flags, all of them |
| `EndToEnd.AuditRecoversMap` | scripts/audit_pp_descriptors.py:115-119 | The audited row of an audio map decodes to all of the specification's mappings in order, each field modulo 2^16 |
| `EndToEnd.AuditRecoversServedMap` | scripts/audit_pp_descriptors.py:115-119 | A map some static port serves decodes to its mappings as stated, but for a stream channel past 2^16, and entire when no mapping in it passes the widest format |
| `EndToEnd.AuditRecoversRates` | scripts/audit_pp_descriptors.py:91-97 | The audited AUDIO_UNIT decodes to the specification's rates, current rate and port counts |
| `EndToEnd.AuditRecoversConfiguration` | scripts/audit_pp_descriptors.py:86-90 | The audited CONFIGURATION decodes to the specification's own counts |
| `EndToEnd.AuditRecoversClockDomain` | scripts/audit_pp_descriptors.py:123-126 | The audited CLOCK_DOMAIN lists every clock source of the specification in order |
| `EndToEnd.AuditRecoversPort` | scripts/audit_pp_descriptors.py:111-113 | The audited STREAM_PORT decodes to its port's clusters and its one map, or none when dynamic, and to its base cluster modulo 2^16 |
| `EndToEnd.AuditRecoversIdentity` | scripts/audit_pp_descriptors.py:78-85 | The audited ENTITY decodes to the advertised identity, every number the decoder reads |
| `EndToEnd.AuditRecoversInterface` | scripts/audit_pp_descriptors.py:106-108 | The audited AVB_INTERFACE decodes to the station's MAC and clock identity |
| `EndToEnd.DocumentAnswersEachObject` | scripts/audit_pp_descriptors.py:178-192 | The document answers every object's key with octets laid out as that object |
| `EndToEnd.AuditDecodesEachObject` | scripts/audit_pp_descriptors.py:46-73 | The audited row of any object decodes octets laid out as that object |
| `EndToEnd.AuditRecoversTheRest` | scripts/audit_pp_descriptors.py:76-127 | One configuration, the interface's port, every clock source's type and location, each cluster's channel and the control come back |
| `ConfigWalk.SpellsExactly` | scripts/check_baremetal_only.py:894-895 | A text stripped and lowered is a word exactly when it is white space, a case variant of it, and white space |
| `ConfigWalk.DisownsExactly` | scripts/check_baremetal_only.py:880-895 | The test accepts exactly the entries whose key is white space, a case variant of fabric_gptp, white space, and whose value is null, false, zero, an empty container, or white space around a case variant of one of the eleven words |
| `ConfigWalk.Walk` | scripts/check_baremetal_only.py:902-926 | Terminates on any graph and reports each violating entry on each container-distinct path exactly once |
| `ConfigWalk.TrailHasHit` | scripts/check_baremetal_only.py:908-911 | Any trail to a violation, revisits included, has a hit the path-local guard still lets the walk see |
| `ConfigWalk.HitIsReachable` | scripts/check_baremetal_only.py:902-926 | Every hit lies on a real trail |
| `ConfigWalk.WalkSeesEveryViolation` | scripts/check_baremetal_only.py:902-926 | The walk has a hit exactly when a violating mapping is reachable along any path |
| `ConfigWalk.ScanDocuments` | scripts/check_baremetal_only.py:948-951 | Findings are reported exactly when some document reaches a mapping with a violating entry |
| `Hygiene.FixBytes` | scripts/check_hygiene.py:262-276 | The repair keeps all non-whitespace bytes and scans clean exactly on repairable inputs |
| `Hygiene.ScanBytes` | scripts/check_hygiene.py:241-253 | A file scans clean exactly when the four fixable counts are zero; the trailing and tab counts are positive exactly when some line is bad and count exactly the bad lines; nothing is reported for empty or generated files |
| `Hygiene.TrailingWsMeaning` | scripts/check_hygiene.py:230-233 | A line is flagged exactly when nothing but CRs follows some space or tab before which something else stands |
| `Hygiene.RepairablePattern` | scripts/check_hygiene.py:262-276 | A file is repairable exactly when, behind a leading BOM, its bytes hold no second BOM and no CR followed by blanks and then CRLF or the end, or by at least one blank and then LF |
| `Hygiene.FixedLineByLine` | scripts/check_hygiene.py:271-275 | The lines of the output are the input's own lines, stripped one by one, and the last is empty |
| `Hygiene.SplitAtBreaks` | scripts/check_hygiene.py:271-273 | Splitting is at each byte 10 and nowhere else, and joining gives the bytes back |
| `Hygiene.StripLineExactly` | scripts/check_hygiene.py:271-272 | A line of spaces and tabs keeps them; any other is cut behind its last other byte |
| `Hygiene.UnixLineByLine` | scripts/check_hygiene.py:270 | CRLF conversion drops one CR before each break and no other byte |
| `Hygiene.OutputLineByLine` | scripts/check_hygiene.py:262-276 | Line i of the output is line i of the input behind its byte-order mark, converted and stripped; a break is added exactly when the last is not empty |
| `Hygiene.FixedScansClean` | scripts/check_hygiene.py:262-276 | The output scans clean on all four fixable checks if and only if the input is repairable |
| `Hygiene.FixedIsAFixedPoint` | scripts/check_hygiene.py:262-276 | A second repair changes nothing if and only if the input is repairable |
| `Hygiene.PlainFilesAreRepairable` | scripts/check_hygiene.py:262-276 | Files with at most one leading BOM whose CRs each precede an LF are repairable, clean after one pass and stable |
| `Hygiene.LoneCrNeedsASecondPass` | scripts/check_hygiene.py:271-275 | A lone CR becomes a fresh CRLF that the scanner reports |
| `Hygiene.FixedKeepsContent` | scripts/check_hygiene.py:262-276 | For every input, the bytes other than CR, LF, space and tab come through in order |

## Left out

- Build: the per-stream format tables, PNMAPS and the other listener constants, the clock source table and the lint waivers are not carried in the model; none can refuse an accepted specification except a clock source whose type word is unknown, which is taken not to occur.
- StaticMapTables: the deviations are kept as mappings, one list per direction, not as sentences; comparing them with the recorded ones (`assert_no_map_deviations`) is string matching.
- ScanBytes: the generated-file banner test and the suffix test are parameters.
- Walk: crumbs are positions along the path, not rendered strings; lower-casing is ASCII's, which decides every word compared, since no other character lowers into one of their letters; non-finite floats are not distinguished.
- NameRoundTrip: UTF-8 validity is a parameter; names are encoded bytes, so character-level truncation is not visible.
- PackedRows: the image may be any byte string, because the packer is not part of this model; the rows are decoded fields, not rendered hexadecimal.
- MapDirection.n_streams is taken as the number of stream specifications, which is what its only caller passes.
- Negative or non-integer values, missing dictionary keys and gPTP octets outside 0..255, which the Python would meet with an exception, are ruled out by types.
- A built bytearray is a sequence; slice assignment clamps as Python's does, and aliasing with the model's own ROM is not expressed.
- `identity_from_overlay`, `adp_entity_capabilities` and `rtl_version`: parsing of text and overlays.
- `spec_from_overlay`, `builtin_spec`: translation of JSON into a specification; a specification here is any value of the type.
- The emitters (SVH, JSON), the command lines, file reading and every diagnostic text.
- The remaining document and policy gates, the sockets and serial-port tools, the diagrams and the area baseline.
