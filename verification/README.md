# iotit: a Dafny model of its logic

iotit flashes operating system images for single-board computers. Most of it drives dialogs, SSH and
VirtualBox; this project models the parts that compute or keep state, and proves what they promise.

| file | models |
|---|---|
| `Text.dfy`, `Numerals.dfy` | splitting, joining and reading numbers as Go does |
| `Versions.dfy` | version tokens and the version order of `repo/repository.go` |
| `VmUpdate.dfy` | the positional version key of `vbox/machine.go`, and how the two orders relate |
| `TailLog.dfy` | the backward scan of the log file in `iotit.go` |
| `DeviceTree.dfy`, `DeviceNames.dfy`, `DeviceMapping.dfy` | the device tree of `repo/mapping.go`, as a value and as shared nodes updated in place |
| `DeviceLookups.dfy`, `DeviceDirectories.dfy` | what whole sequences of lookups do to the images and the directories of that tree |
| `DeviceSelection.dfy`, `DeviceListing.dfy` | menus, `getFlasher` and the device listing of `device/device.go` |
| `DeviceExamples.dfy` | a tree for which the order of lookups and the name asked for matter |
| `SortedKeys.dfy`, `Callbacks.dfy` | running a map of callbacks in sorted and in arbitrary order |
| `Documents.dfy`, `DefaultCallbacks.dfy` | the callbacks of `device/config/configurator.go` and `device/rasppi.go` |
| `Configurator.dfy`, `ConfiguredImage.dfy`, `PiImage.dfy` | the configurator, and the image that the answers of a user lead to |
| `HostName.dfy`, `WriteFailures.dfy` | what saving a host name leaves on the image, and when writing fails |
| `ConfigReader.dfy`, `ImageFields.dfy` | reading the written files back, and finding every answer in them |
| `MountRuns.dfy`, `SdFlasher.dfy` | mounting, detection and configuration of an image in the virtual machine |
| `Workstation.dfy` | choosing a disk and writing to it |

Code that updates state is a class or a method proved against a function on values or against the run of
commands it sends; the lemmas are about those functions and runs. Dialogs, remote commands and disks answer
arbitrarily: as unconstrained values, or as a function of everything sent before.

## What the code does, where one might expect otherwise

- The two version orders agree on equally many components, but `CheckUpdate` aligns versions on the right and
  `IsVersionUpToDate` on the left. A longer current version can hide updates from `CheckUpdate`, a longer new
  version can be announced wrongly, and `VersionOrdersDisagree` says exactly when: from 1.0, version 2 is no
  update; from 2, version 1.0 is one.
- `IsVersionUpToDate` orders any mix of lengths strictly, but incomparability is not transitive: 1 lies beside
  both 1.1 and 1.2.
- `tailLog` never counts a newline at byte 0. It prints one line too many exactly when the file begins with an
  empty line and that line would be the first one cut off (`TailIsLastLines`). The output ends with one zero
  byte, or three.
- Looking up a sub-device fills only that node. A deeper node without images of its own has images only if the
  device itself was looked up before (`DeeperImagesDependOnHistory`, `VariantDependsOnHistory`).
- Below a device without images of its own, a direct child has the directory of the device only if an earlier
  lookup scanned it (`LeafDirectory`).
- A model called by its own name gets the flasher of its device only when its image is its own. Below it, nodes
  without a type make `getFlasher` use the name that was asked for (`ModelFlasher`, `ZeroIsNoRaspberryPi`).
- `Setup` asks in alphabetical order of the keys, so the keyboard question comes before the locale question:
  the layouts on offer are narrowed down by the locale stored earlier, never by the one just chosen
  (`SetupStores`).
- `SaveHostname` stops without an error, and with `/etc/hostname` unchanged, when the first substitution
  prints anything on its error channel (`SaveHostnameLeaves`).
- `UnmountImg` returns early exactly when something is mounted. After a successful `Configure` the partition
  that was mounted is still mounted; nothing is left exactly when no listing showed a root or a
  Raspberry Pi partition (`Configure`).
- When the loop device shows no partitions, `MountImg("")` does not unmount the folder either.

## Model

| member | source | states |
|---|---|---|
| `Text.JoinSplit` | repo/repository.go:217-223 | joining the pieces of a split with its separator gives back the string, for every non-empty separator |
| `Text.SplitAnyUnique` | repo/repository.go:213-230 | separator-free pieces that interleave with separators to a string are its one-pass split: there is no other |
| `Numerals.NumbersAreRead` | repo/repository.go:238-246 | the decimal numeral of a number, with or without a sign, is read back as that number if and only if it fits 64 bits |
| `Numerals.NumeralsAreRead` | repo/repository.go:238-246 | a digit string, leading zeros included, is only refused for its size |
| `Numerals.OnlyNumeralsAreRead` | repo/repository.go:238-246 | text that is not a sign and decimal digits is an error |
| `Versions.GetVersionLexem` | repo/repository.go:213-230 | the nested loops compute the fold of splits over all separators, for any strings as separators |
| `Versions.LexemesOnePass` | repo/repository.go:213-230 | with one-character separators, repeated splitting is one pass over the whole separator set |
| `Versions.LexemesIgnoreSeparatorOrder` | repo/repository.go:213-230 | order and repetition of the separators do not change the lexemes |
| `Versions.LexemesLossless` | repo/repository.go:213-230 | one lexeme more than separator occurrences, no separator inside a lexeme, interleaving rebuilds the token, and no other lexemes do |
| `Versions.VersionSeparators` | repo/repository.go:234-235 | dots, underscores and dashes separate, and no other character does |
| `Versions.IsVersionUpToDate` | repo/repository.go:233-257 | the loop gives the left-to-right comparison, with the error of the first lexeme that does not parse |
| `Versions.DecisionPoint` | repo/repository.go:237-256 | an answer is given if and only if some position settles it after lexemes that all parse and are equal |
| `Versions.UpToDateIsStrictPartialOrder` | repo/repository.go:233-257 | irreflexive, asymmetric and transitive for any mix of lengths; incomparable if and only if one number list begins the other |
| `Versions.IncomparableIffPrefix` | repo/repository.go:237-256 | neither of two number lists is newer if and only if one is a prefix of the other |
| `Versions.UpToDateTotalOnEqualCounts` | repo/repository.go:233-257 | with equally many lexemes exactly one of two versions is newer, unless they are numerically equal |
| `Versions.UpToDateIsNoWeakOrder` | repo/repository.go:255-256 | 1.1 and 1.2 are both incomparable with 1, yet 1.2 is newer than 1.1 |
| `Versions.StableIffThreeParts` | repo/repository.go:202-210 | the pattern matches if and only if splitting at dots gives three non-empty parts of digits, bars and underscores |
| `VmUpdate.Comparison` | vbox/machine.go:275-289 | the accumulating loop gives the key: components padded, concatenated, parsed |
| `VmUpdate.CheckUpdate` | vbox/machine.go:308-317 | an update is reported if and only if the new key is greater; an unreadable version ends the program |
| `VmUpdate.EncodeIsHorner` | vbox/machine.go:275-289 | pad, concatenate and read is Horner evaluation in base 10^width, for every width |
| `VmUpdate.HornerEmbedsOrder` | vbox/machine.go:275-289 | on equally long lists of digits below the base, keys are injective and strictly monotone for lexicographic order |
| `VmUpdate.KeyIsHorner` | vbox/machine.go:283-288 | a version of fitting components has a key if and only if its Horner value fits 64 bits, and the key is that value |
| `VmUpdate.SixComponentsFit` | vbox/machine.go:275-289 | up to six components of width 3 never overflow |
| `VmUpdate.KeysAlignRight` | vbox/machine.go:275-289 | for any lengths, keys compare and coincide like the component lists with zeros in front of the shorter one |
| `VmUpdate.VersionOrdersAgree` | vbox/machine.go:308-317 | with equally many components of 1 to 3 digits, the update check says what `IsVersionUpToDate(new, current)` says, whenever both keys fit; up to six components they do |
| `VmUpdate.CountsDecideUpdate` | vbox/machine.go:308-317 | for dotted versions of any lengths, the exact answer: the longer version counts as newer, unless it starts with as many zeros as it is longer and what remains is not |
| `VmUpdate.VersionOrdersDisagree` | vbox/machine.go:308-317 | for dotted versions of any lengths, the two differ if and only if: with the current version at least as long, the new one is newer from the left but not from the right; with the new one longer, newer from the right but not from the left |
| `VmUpdate.OneDotZeroHidesTwo` | vbox/machine.go:308-317 | the instances with 1.0 and 2, in both directions |
| `TailLog.TailLog` | iotit.go:335-388 | for every file and every count: when it succeeds, and that it prints exactly the suffix after the k-th counted newline from the end (or the whole file) followed by three zero bytes (or one) |
| `TailLog.TailStartUnique` | iotit.go:352-377 | there is only one such suffix |
| `TailLog.TailIsLastLines` | iotit.go:357-373 | the suffix is the last k lines if and only if the file does not begin with an empty line that was due to be cut off |
| `TailLog.EmptyLineTooMany` | iotit.go:357-373 | an empty line and one more: asked for one line, both are printed |
| `DeviceMapping.Device.CopyOf` | repo/mapping.go:94-96 | the range variable copies the fields and shares the children |
| `DeviceMapping.Device.FindImage` | repo/mapping.go:79-89 | the first image whose title, in any case, or alias matches is chosen, and nothing else changes; it fails exactly when none matches |
| `DeviceMapping.FillEmptyImages` | repo/mapping.go:225-236 | the recursion over shared nodes gives the filled tree and never writes to its root |
| `DeviceMapping.ScanSubs` | repo/mapping.go:101-112 | the inner loop marks the children up to the first match, which inherits images, and returns that very node |
| `DeviceNames.ToLowerIsSmall` | repo/mapping.go:93 | lower-casing turns capital letters into their small ones and changes nothing else |
| `DeviceMapping.DeviceCollection.FindDevice` | repo/mapping.go:92-116 | the shared tree after a lookup, and the node returned: a fresh filled copy that shares its children, or the child itself; nothing if and only if no device and no child carries the search as alias or, in any case, as name |
| `DeviceLookups.FillAt` | repo/mapping.go:225-236 | at every path: images of the nearest originally non-empty ancestor-or-self, directory of the parent, everything else unchanged |
| `DeviceLookups.FillIdempotent` | repo/mapping.go:225-236 | filling twice is filling once; a root without images changes nothing |
| `DeviceLookups.LocateIsFirst` | repo/mapping.go:92-116 | a lookup reaches an entry if and only if it is the first match of the flattened list, and fails if and only if none matches |
| `DeviceNames.ReachedByNameOrAlias` | repo/mapping.go:97-105 | an entry that carries the lower-cased search as alias, or as name in any case, is reached when none before it does |
| `DeviceNames.NothingReached` | repo/mapping.go:92-116 | a lookup fails if and only if no name and no alias is the one searched for |
| `DeviceNames.RaspiFindsRaspberryPi` | repo/mapping.go:97 | RASPI finds the device with the alias raspi |
| `DeviceLookups.ResolveAgain` | device/device.go:35-49 | looking up the found name again reaches the same entry if and only if no earlier entry answers to that name |
| `DeviceLookups.DistinctNamesResolve` | device/device.go:35-49 | in particular when names and aliases are distinct |
| `DeviceLookups.NewThenGetFlasher` | device/device.go:35-49 | the second lookup runs on the tree the first one changed, and reaches what it would have reached before |
| `DeviceLookups.RunSettled` | repo/mapping.go:92-116 | after any run of lookups, all images of all nodes are determined by which devices and children were reached; further lookups are not affected |
| `DeviceLookups.RunsAgree` | repo/mapping.go:92-116 | order and repetition of lookups do not matter |
| `DeviceLookups.EffectiveImagesNeverChange` | repo/mapping.go:92-116 | over any run, the nearest non-empty images of every node at every depth stay the same |
| `DeviceLookups.ReturnedImagesIndependent` | repo/mapping.go:97-109 | a returned device has the same images at every depth, and a returned child the same images of its own, whatever came before |
| `DeviceLookups.DeeperImagesDependOnHistory` | repo/mapping.go:105-109 | below a returned child: effective images if the device itself was looked up before, own images otherwise |
| `DeviceLookups.EveryLeafHasImages` | repo/mapping.go:97-99 | after any run, every node of a returned device with images has the images of its nearest non-empty ancestor-or-self, and they are not empty |
| `DeviceDirectories.DirectoriesSettled` | repo/mapping.go:92-116 | after any run of lookups, a node has the name of its parent as directory if and only if its device has images and was looked up, or a lookup scanned it as a direct child; every other directory is as before |
| `DeviceDirectories.LeafDirectory` | repo/mapping.go:92-99 | below a device that is looked up, the directory is that of the parent when the device has images; when it has none, exactly for a direct child that was scanned before |
| `DeviceDirectories.ModelDirectory` | repo/mapping.go:101-109 | a model looked up has the name of its device as directory; deeper nodes depend on whether the device was looked up before |
| `DeviceSelection.SelectDevice` | device/device.go:177-188 | any menu answers end at a leaf of the tree, by recursion on its nodes |
| `DeviceSelection.SelectImage` | device/device.go:191-206 | null if and only if the leaf has no images; otherwise the leaf, with one of its images chosen, and no other node changed |
| `DeviceSelection.ChooseImage` | device/device.go:121-130 | an unknown image if and only if none matches; the first match, or the image carried already, when it has an address; otherwise what a leaf offers |
| `DeviceSelection.GetFlasher` | device/device.go:105-174 | when it fails and how, the image chosen, and the flasher: one for each of the five family names, for SD cards otherwise, by the type of the node the image was chosen from, or by the name asked for when that node has no type |
| `DeviceSelection.NoEmptyRepository` | device/device.go:121-130 | a device with images never ends in an empty repository, after any lookups, and the image is one that a leaf offers unless one with an address was asked for or carried |
| `DeviceSelection.FamilyFlasher` | device/device.go:133-137 | for a device called by its name, below which no node names another family: whatever model and image is chosen and whatever was looked up before, the flasher is the one made for that name |
| `DeviceSelection.ModelFlasher` | device/device.go:133-137 | for a model called by its name: the flasher made for the name of the device above it, unless the image comes from further down, where the family is lost |
| `DeviceSelection.FlasherMadeFor` | device/device.go:137-173 | the table of flashers, name by name: no name has two, and every other name has the one for SD cards |
| `DeviceExamples.VariantDependsOnHistory` | repo/mapping.go:105-109 | a tree of three levels where a variant has no images first, and has some after a lookup of the family |
| `DeviceExamples.ZeroIsNoRaspberryPi` | device/device.go:121-137 | there, a Zero called by its name ends in an empty repository, or with the default flasher instead of the one for a Raspberry Pi |
| `DeviceExamples.LiteRaspberryPi` | device/device.go:121-144 | a Raspberry Pi with an image that has an address gets the flasher of a Raspberry Pi and that image |
| `DeviceListing.ListMapping` | device/device.go:66-102 | the listing and the tree after looking up every device by its own name, one on the changes of the other; none is skipped |
| `DeviceListing.ListingShows` | device/device.go:72-99 | the entry of a device found under its own name: name, alias, and the titles and aliases of its images, or one model for each child with the images of its own or inherited |
| `DeviceListing.ListingIndependent` | device/device.go:70-100 | a device found under its own name is listed the same after any other lookups |
| `SortedKeys.AscendingUnique` | device/config/configurator.go:73-77 | an ascending list is determined by its members, so the order in which a map hands out its keys is gone after sorting |
| `Callbacks.RunReachesTarget` | device/config/configurator.go:91-103 | for callbacks with disjoint footprints: all succeed if and only if each does on the original image, every file then ends as its owner alone leaves it, and a reported error is one of theirs |
| `Callbacks.Confluent` | device/config/configurator.go:91-103 | any two iteration orders give the same verdict and, on success, the same storage and image |
| `DefaultCallbacks.PlanLocal` | device/config/configurator.go:153-181 | a callback whose commands go to given files touches no others, and depends on no others |
| `DefaultCallbacks.DefaultIndependent` | device/config/configurator.go:218-350 | for every storage the default callbacks keep the storage and have disjoint footprints, `interfaces.d/wlan0` included |
| `DefaultCallbacks.PiIndependent` | device/rasppi.go:37-41 | the same for the callbacks of a Raspberry Pi |
| `DefaultCallbacks.LanguageIsCut` | device/config/configurator.go:190-194 | the language that narrows the layouts down is the locale up to its first underscore or dot |
| `WriteFailures.WorkVerdict` | device/config/configurator.go:153-181 | commands on different files succeed together exactly when each that must does on its own, and the error is one of theirs |
| `WriteFailures.WriteSucceedsIff` | device/config/configurator.go:91-103 | Write succeeds if and only if, on the image as it was, every command that must succeed does: which ones, callback by callback |
| `WriteFailures.PiWriteSucceedsIff` | device/rasppi.go:157-177 | the same with the Raspberry Pi callbacks |
| `HostName.SaveHostnameLeaves` | device/config/configurator.go:445-473 | for every reply: when saving the host name reports success, and what it leaves in both files; success without the second file exactly after a warning about the first |
| `HostName.WarningKeepsOldName` | device/config/configurator.go:463-466 | a host on which that happens |
| `Configurator.Configurator.NewDefault` | device/config/configurator.go:55-64 | registers exactly the six default callbacks, under their names |
| `Configurator.Configurator.AddConfigFn` | device/config/configurator.go:106-108 | maps the name to the callback and changes nothing else |
| `Configurator.Configurator.SetConfigFn` | device/config/configurator.go:111-113 | the same |
| `Configurator.Configurator.RemoveConfigFn` | device/config/configurator.go:121-123 | removes the name and nothing else |
| `Configurator.Configurator.Setup` | device/config/configurator.go:72-88 | runs the Config callbacks that exist in ascending key order up to the first error, whatever the map iteration order |
| `Configurator.Configurator.Write` | device/config/configurator.go:91-103 | runs the Apply callbacks that exist in some order of all keys up to the first error |
| `Configurator.RegistrationOrderIrrelevant` | device/config/configurator.go:106-123 | only the last registration of each name counts, so the order of registrations does not matter |
| `Configurator.DefaultWriteConfluent` | device/config/configurator.go:91-103 | for every storage and image, the image that the default callbacks write does not depend on the iteration order, nor does success |
| `Configurator.PiWriteConfluent` | device/rasppi.go:157-177 | the same with the Raspberry Pi callbacks |
| `ConfiguredImage.SetupStores` | device/config/configurator.go:72-88 | Setup succeeds if and only if there is a connection and the host name can be read; the storage it leaves, with layouts chosen by the locale stored before |
| `ConfiguredImage.ImageReflectsAnswers` | device/config/configurator.go:130-473 | from a fresh configurator, when all commands succeed, every file of the image holds exactly what the answers ask for, and every other file is untouched |
| `ConfigReader.WifiFields` | device/config/constants.go:40-49 | a reader of the text recovers the network name and the password, each under its own key |
| `ConfigReader.InterfaceFields` | device/config/constants.go:24-38 | and the device, address, netmask, gateway and name servers of a static interface |
| `ConfigReader.LocaleFields` | device/config/configurator.go:165 | and the locale, under both keys |
| `ConfigReader.EnvironmentFields` | device/config/configurator.go:173-211 | and the locale of the environment and the keyboard layout |
| `ConfigReader.PiInterfaceFields` | device/rasppi.go:107-114 | and the interface of a Raspberry Pi |
| `ImageFields.ImageShowsAnswers` | device/config/configurator.go:130-473 | from a fresh configurator, when all commands succeed and the shell leaves the texts alone, a reader of the image finds every one-line answer under its key |
| `PiImage.PiConfigurator` | device/rasppi.go:37-41 | registering three callbacks on a default configurator gives those of a Raspberry Pi |
| `PiImage.PiOrderIsDefaultOrder` | device/rasppi.go:37-41 | the same for the map of callbacks |
| `PiImage.PiSetupStores` | device/rasppi.go:62-68 | when all commands succeed, what Setup stores for a Raspberry Pi, and what it already writes to the boot partition |
| `PiImage.PiImageReflectsAnswers` | device/rasppi.go:122-213 | from a fresh Raspberry Pi configurator, when all commands succeed, every file of the image and the boot partition holds exactly what the answers ask for |
| `ImageFields.PiImageShowsAnswers` | device/rasppi.go:122-213 | the same for a Raspberry Pi, with the camera and the SSH server |
| `SdFlasher.SdFlasher.Mount` | device/sd_flasher.go:269-310 | the commands a mount sends for every reply, that it succeeds if and only if its last attempt does or the first says it is mounted already, that a repair is given up only for a reason, and what becomes of the stack of mounts |
| `MountRuns.ComplaintsInWords` | device/sd_flasher.go:276-305 | the two complaints, as pieces of the error text |
| `MountRuns.ListingsInWords` | device/sd_flasher.go:88-96 | the two kinds of listings, as pieces of the output |
| `SdFlasher.SdFlasher.AttachImage` | device/sd_flasher.go:32-41 | detach all loops, attach the image, make the folder, in this order up to the first that fails, where a failed detaching does not count |
| `SdFlasher.SdFlasher.MountGiven` | device/sd_flasher.go:25-56 | nothing and an error without an image; otherwise the attaching, and only after it succeeded one mount of that partition |
| `SdFlasher.SdFlasher.FindPartition` | device/sd_flasher.go:74-108 | one round for each partition in order, mounted and then listed, up to the first that shows a root or a Raspberry Pi; on a machine whose replies match what it did, only a root partition stays mounted |
| `MountRuns.InVainMeans` | device/sd_flasher.go:74-108 | a search in vain tried every partition and no other, listed every one that could be mounted, and no listing showed anything |
| `MountRuns.FoundMeans` | device/sd_flasher.go:74-108 | a search that ends at a partition tried it and those before it and no later one, listed every one that was mounted, and ends with the first listing that shows a root, which is that of this partition |
| `SdFlasher.SdFlasher.Detect` | device/sd_flasher.go:74-108 | over all replies: without a Raspberry Pi partition the run is the search for the first root partition; with one, the search up to it and then its configuration |
| `SdFlasher.SdFlasher.MountDetected` | device/sd_flasher.go:25-108 | over all replies the whole run: nothing without an image; attaching and listing, where a failure is the end and the error; no partitions, the end; otherwise the folder is unmounted and the partitions are searched. With at most one mount before, the partition that stays mounted is the first whose listing shows a root, and none does exactly when no listing shows one; everything mounted was listed |
| `SdFlasher.SdFlasher.MountImg` | device/sd_flasher.go:25-108 | the run on a given or a detected partition; the detection goes through the Raspberry Pi configuration at most once, and never from a given partition; something is mounted if and only if a listing showed a root or a Raspberry Pi partition |
| `SdFlasher.SdFlasher.UnmountImg` | device/sd_flasher.go:112-128 | does nothing if and only if something is mounted; otherwise unmounts, then detaches |
| `SdFlasher.SdFlasher.RaspberryConfigure` | device/rasppi.go:33-87 | the whole run: mounting the main partition, the boot partition, the question and Setup if it is wanted or only the SSH server, writing, unmounting the boot partition, up to the first that fails; on success the main partition is mounted and stays so |
| `SdFlasher.SdFlasher.Configure` | device/sd_flasher.go:184-225 | the whole run: prepare, mount, then nothing for a Raspberry Pi, a question when nothing was found, or the dialog; the default configurator runs exactly when the user wants it, and at most one configurator runs; from nothing mounted, on success something is left mounted if and only if a listing showed a root or a Raspberry Pi partition |
| `Workstation.Linux.SelectDisk` | workstation/w_linux.go:179-229 | one to three attempts, each but the last in vain; it picks the first disk of the given name, or one from the menu, that is listed and permitted, and refuses exactly when the name is unknown, the mode cannot be read, the user stops, or three attempts found no disk or a locked one |
| `Workstation.Linux.WriteJob` | workstation/w_linux.go:241-274 | one to three runs of dd on the chosen disk, all but the last failed; after a failed one it ends only when the user stops it or no attempt is left; the job fails if and only if the last one did |
| `Workstation.Linux.WriteToDisk` | workstation/w_linux.go:179-278 | refused, declined or started, each exactly after what the selection and the confirmation came to; dd runs only on the disk selected; a declined confirmation leaves it not writable; a refusal changes nothing |
| `Workstation.Linux.UnmountDisk` | workstation/w_linux.go:108-117 | unmounts the chosen disk if and only if it is writable |
| `Workstation.Linux.EjectDisk` | workstation/w_linux.go:281-290 | ejects the chosen disk if and only if it is writable |
| `Workstation.Write` | device/sd_flasher.go:131-180 | over every run: it succeeds if and only if the first question or the confirmation was declined, or dd succeeded and the disk was unmounted and ejected; a failed download, a refused disk and a failed last dd are errors; every command that touches a disk goes to the one chosen, permitted disk |

## Left out

- Downloads, JSON decoding, hashing, file timestamps: external; the decoded tree and the version strings are inputs. A decoded tree has no null children and shares no node, as decoding gives it.
- Dialogs and printing: any answer in range; banners, logging and colours are dropped. A dialog that gives up after too many bad answers ends the program and is not modelled.
- VirtualBox control, presets and `prepareImage`: thin wrappers around other programs.
- Serial, ESP, Colibri and Edison flashing: loops whose progress depends on hardware.
- Windows and Darwin workstations, `CopyToDisk` and `CleanDisk`: near copies with other commands.
- `custom` flashing in `getFlasher`: takes an address from a dialog and does not touch the tree.
- Which removable disks there are: the reading of `/sys` in `ListRemovableDisk` is any non-empty list, or an error.
- Paths of image files: the fixed paths are the constructors of a datatype; an interface name that climbs out of its directory is not modelled.
- Remote shell quoting and `sed`: functions from text to text. A command that fails leaves its file, or the mounts, as they were.
- Regular expressions over the listing of loop devices and over the kernel log: what they find is a function of the text.
- Commands that the configurator sends while an image is mounted do not touch the mounts; the runs in `MountRuns.dfy` only record that its Setup and Write ran and whether they failed.
- ImageFields.ImageShowsAnswers: the shell leaves quoted texts as they are, escaped quotes included, and an answer with a line break is not looked for; `ImageReflectsAnswers` holds for every shell.
- Jobs in goroutines run where their caller waits for them; their progress display is dropped.
- Text.Result: the kind of a number error (syntax or range) is not kept, only the string it is about.
- DeviceTree.ToLower: lower-cases ASCII letters only.
- VmUpdate.Comparison: the width is a natural number; the program only uses 3.
- Workstation.Write: the download of the image from the virtual machine is one step that may fail.
