# TIGGE archiving: a verified model

The repository turns the GRIB output of NCEP's ensemble forecast into the files of the TIGGE archive. This
project models the parts of it that carry state or arithmetic, and proves what they keep:

- **Handle registries** (`slot_list.dfy`, `registry.dfy`): the linked lists in which the Python and Fortran
  interfaces of the GRIB API keep messages and files under small integer ids. One class serves all copies;
  a `Kind` says how they differ. Its methods are proved against a list of slots, and the list of slots
  against a partial map, over whole runs.
- **Threads** (`lock_protocol.dfy`, `call_order.dfy`, `error_files.dfy`): threads in the locked entry points,
  step by step, in any interleaving, with recursive mutexes as `pthread_mutex_lock` specifies them (System
  Interfaces volume of POSIX.1-2017), what their calls amount to, and the names of the files they dump to.
  `unlocked_files.dfy` is about the one list no mutex guards.
- **Calendar** (`calendar.dfy`): `timeAdd` and `qleap`, against the Gregorian calendar (section 3.2.1 of
  ISO 8601:2004).
- **SWIG runtime** (`cast_list.dfy`, `module_query.dfy`, `hex_codec.dfy`, `c_string.dfy`): the
  move-to-front cast lists, the binary search around the ring of modules, and the hex form of pointers.
- **Texts** (`fortran_strings.dfy`, `fixed_width.dfy`, `file_names.dfy`): strings between Fortran, C and
  Python, and the file names the C program and the linking script must agree on.
- **The forecast pipeline** (`grib_scan.dfy`, `per_hour.dfy`, `record_buffers.dfy`, `integration.dfy`,
  `pipeline.dfy`): the loaders, the variables generated in between as far as they move the files, the
  buffers of one variable and the loop over members, the running sums, and all of them together, from
  input files to output files.

`wrappers.dfy` and `grib_errors.dfy` hold an option type and result codes.

Where a function says what the code computes, a lemma beside it says what that is in terms of the input itself: the
keys of a record, the characters of a name, the codes a call answers.

A handle or a record is a value with an identity or with keys and a field of reals; a file is a sequence of
records with a position. `dafny verify dfyconfig.toml` checks the project.

## Where the code and its documentation differ

- The comment on `MIN_FILE_ID` (grib-api/fortran/grib_fortran.c:28-32) promises distinct file and message
  ids. They are distinct exactly as long as fewer than 50000 messages are live at once.
- `_clear_handle` answers an error for an unknown id in Python and success in Fortran; so it does for an id
  whose handle is NULL. A get by the negated id of a freed slot answers the pointer that was deleted, and an
  unguarded clear by it makes the slot live again and deletes the pointer a second time. The model keeps all
  of this, and says of each call when it still acts as a map.
- The snow loader's comment calls missing records a big problem; the code stores zeros and goes on.
- The count in `grib_f_write_on_fail` (grib-api/fortran/grib_fortran.c:868-873) is raised under a mutex and read
  again after it, so two threads can name the same error file: they do not exactly as long as no two dumps are
  between the two at once.
- The file lists have no mutex, unlike the other lists. The Fortran one acts as one call after another exactly when
  every write still goes where its walk, made then, would send it; two overlapping opens can lose a file.
- The end of the time interval of total precipitation is the start of the run
  (src/generateTotalPrecipitation.c:92-97); the other variables add the forecast hour.
- The loaders of the net fluxes say the difference is always 192 minus 193. If the first two fluxes found
  are of the same kind it is the second minus the first.
- The variables generated hour by hour return without rewinding when a record is missing
  (src/generateTotalColumnWater.c:97-100), and the precipitation loader does not rewind first: it then misses a
  record that is there. A flux loader that fails leaves the files at their ends too, so that one missing flux
  fails the fluxes after it.
- The southern layers of potential temperature are tested with an assignment
  (src/generatePotentialTemperature.c:148, 173), so any record on the surface passes for one.
- A comment in the thermal loader (src/generateTimeIntegratedSurfaceNetThermalRadiation.c:220, 252) says record
  193 must have level type 8; the test below it asks for 1, and so does the model.

## Model

| member | source | states |
|---|---|---|
| `SlotList.StepRefinesTable` | grib-api/python/grib_interface.c:146-197 | Every push, get and clear keeps the slot at position k at id base + k or its negation, and acts as the same call on a partial map from ids to pointers if and only if it does not reach a freed slot through a negative id |
| `SlotList.RunRefinesTable` | grib-api/fortran/grib_fortran.c:188-241 | A run answers, deletes and holds what the map does, after every one of its calls, if and only if none of them reaches a freed slot |
| `SlotList.AllocationRefines` | grib-api/fortran/grib_fortran.c:219-240 | A push that replaces nothing takes the lowest id not in use, whether a freed slot is reused or one is appended |
| `SlotList.LowestUnused` | grib-api/fortran/grib_fortran.c:219-240 | The result is unused and every id from the start up to it is in use |
| `SlotList.ClearRefines` | grib-api/python/grib_interface.c:548-563 | A clear removes exactly its id from the map and deletes exactly its pointer, if and only if it does not reach a freed slot by a negative id |
| `SlotList.PythonMessages` | grib-api/python/grib_interface.c:146-197 | Python, with its own codes: a push replaces a live id's handle, else takes a new id, 1 on an empty registry; a clear answers what deleting did, and -28 if there was nothing to delete |
| `SlotList.FortranMessages` | grib-api/fortran/grib_fortran.c:188-241 | Fortran: a push never replaces, and a clear with nothing to delete answers 0 |
| `SlotList.FortranFiles` | grib-api/fortran/grib_fortran.c:578-590 | Fortran files: ids from 50000, success for a known id whatever closing answers, and -27 for an unknown one |
| `SlotList.GetsOfFreedSlots` | grib-api/fortran/grib_fortran.c:529-539 | A get by the negated id of a freed message slot answers its old pointer; no file has an id below 50000 |
| `SlotList.PushRefines` | grib-api/python/grib_interface.c:146-197 | A push under a live positive id replaces and deletes that id's pointer and no other; any other push allocates |
| `SlotList.SlotsEqualPeak` | grib-api/python/grib_interface.c:181-192 | After any run, whatever ids its calls name, the number of slots is the largest number of entries that were ever live at once |
| `SlotList.LiveIsTableSize` | grib-api/python/grib_interface.c:146-197 | Where the slot list stands for the map, its live slots are as many as the map's entries |
| `SlotList.IssuedIdsAreBelowPeak` | grib-api/fortran/grib_fortran.c:188-241 | The ids any run hands out are exactly the first ones from the base up, as many as its peak of live entries |
| `SlotList.FileAndMessageIdsCollide` | grib-api/fortran/grib_fortran.c:28-32 | For any runs, file ids and message ids coincide for some id if and only if 50000 messages were live at once (and some file was opened): the protection the comment promises holds below that only |
| `SlotList.FileAndMessageIdsCanCollide` | grib-api/fortran/grib_fortran.c:28-32 | 50000 messages and one file do share the id 50000 |
| `SlotList.LanguagesAgree` | grib-api/python/grib_interface.c:421-430 | The Python and Fortran registries go through the same states, delete the same handles and answer every call alike, except that a clear with nothing to delete is an error in Python and a success in Fortran, all along a run if and only if no push names a live id and no clear revives a freed slot |
| `SlotList.StepConservesHandles` | grib-api/python/grib_interface.c:548-563 | One call changes the balance of a handle (live slots + deletions - pushes) by two if it revives a freed slot holding it, and not at all otherwise |
| `SlotList.RunConservesHandles` | grib-api/fortran/grib_fortran.c:592-604 | Over every run and for every handle: pushes + twice the revivals = live slots that hold it + deletions; so pushed = live + deleted if and only if it is never revived |
| `SlotList.EachHandleDeletedAtMostOnce` | grib-api/fortran/grib_fortran.c:592-604 | When distinct handles are pushed, each is deleted at most once if and only if no clear revives a freed slot; then none is both live and deleted |
| `SlotList.ClearingTwiceDeletesTwice` | grib-api/python/grib_interface.c:548-563 | The failing input: pushed as 1, cleared as 1 and cleared again as -1, a Python handle is deleted twice and a Fortran one once |
| `SlotList.LiveHandlesAreDistinct` | grib-api/python/grib_interface.c:146-197 | When distinct handles are pushed, two live ids never hold the same handle, in any run |
| `SlotList.OnlyItsOwnIdDeletesAHandle` | grib-api/python/grib_interface.c:158-160 | After any run pushing distinct handles, a live handle is deleted by the next call if and only if that call clears its own id, or (Python) pushes over it |
| `Registry.HandleSet.Push` | grib-api/python/grib_interface.c:146-197 | On the linked list in place: the new slots, the id and what is deleted are those of the slot list |
| `Registry.HandleSet.Allocate` | grib-api/fortran/grib_fortran.c:188-241 | The loop that reuses the first freed node or links a new one at the end: old nodes stay, any others are new |
| `Registry.HandleSet.Replace` | grib-api/python/grib_interface.c:153-163 | The old pointer is deleted and the new one stored in the same node |
| `Registry.HandleSet.Locate` | grib-api/python/grib_interface.c:421-430 | The walk ends at the first node with the id, or at NULL if there is none |
| `Registry.HandleSet.LocateFree` | grib-api/fortran/grib_fortran.c:219-231 | The walk ends at the first node with a negative id and counts the id the next new node would get |
| `Registry.HandleSet.Get` | grib-api/fortran/grib_fortran.c:529-539 | The pointer the slot list answers, NULL below the least id |
| `Registry.HandleSet.Clear` | grib-api/fortran/grib_fortran.c:578-604 | The node's id is negated in place, its non-NULL pointer deleted, and the code is that of the slot list |
| `Registry.Serve` | grib-api/fortran/grib_fortran.c:151-241 | Any sequence of calls on a fresh linked-list registry answers and deletes exactly what the run of the slot list does |
| `LockProtocol.ScriptsAreDisciplined` | grib-api/python/grib_interface.c:757-819 | Every locked entry point, the dump to an error file included, takes mutexes in rank order (or again the one it holds), touches a list only under that list's mutex and raises the file count only under the handle mutex, and ends holding nothing |
| `LockProtocol.NextKeepsInv` | grib-api/python/grib_interface.c:305-311 | Every step of every thread keeps the invariant: disciplined remainders, positive depths, loaded copies still current, lists equal to the run of their calls, and each thread's answers those logged for it |
| `LockProtocol.InvHolds` | grib-api/python/grib_interface.c:37-49 | The invariant holds in every state any schedule reaches |
| `LockProtocol.AccessIsExclusive` | grib-api/python/grib_interface.c:454-461 | In every reachable state a thread about to read or write a list owns its recursive mutex, so no two threads are |
| `LockProtocol.IdleThreadsHoldNothing` | grib-api/python/grib_interface.c:775-782 | Once a thread's outermost call has ended, its depth in every recursive mutex is zero |
| `LockProtocol.ConcurrentCallsAreSequential` | grib-api/python/grib_interface.c:305-311 | Whatever the interleaving, each list is that of its calls run one after another in the order they took effect, and every thread has got, in order, the answers this run gives to its own calls |
| `CallOrder.ScriptsDoTheirCalls` | grib-api/python/grib_interface.c:305-319 | What a script does to the lists, in order, is what the call stands for, once: its one operation; or a look at the handle and, if the iterator is made, the push; or a look at the handle |
| `CallOrder.IteratorsAreMadeUnderTheirMutex` | grib-api/python/grib_interface.c:757-819 | A new iterator's own mutex is held from the first step to the last, around the look at the handle and the push |
| `CallOrder.OnlyDumpsCount` | grib-api/fortran/grib_fortran.c:861-878 | A dump raises the count once and names one file after that; no other call does either |
| `LockProtocol.NoDeadlock` | grib-api/fortran/grib_fortran.c:926-992 | A blocked thread waits for a thread that can move, or for one that waits for one that can |
| `LockProtocol.EveryCallCanComplete` | grib-api/fortran/grib_fortran.c:908-992 | From every state with the invariant some schedule of exactly the remaining steps finishes all calls and frees all mutexes |
| `LockProtocol.EveryMaximalScheduleCompletes` | grib-api/fortran/grib_fortran.c:908-992 | However threads that can move are picked, the calls under way end: no such schedule has more than the remaining steps, and one that cannot be continued has made all of them and leaves every thread idle and every mutex free |
| `LockProtocol.NoRaiseIsLost` | grib-api/fortran/grib_fortran.c:868-871 | In every reachable state the count of error files equals the number of times it was raised |
| `CallOrder.StartedCallsAreLogged` | grib-api/python/grib_interface.c:305-311 | The operations logged for a thread on a list are, in order, those of the calls it has started, less what its current call has still to do: none is lost, made up or reordered |
| `CallOrder.IdleThreadsHaveTheirAnswers` | grib-api/fortran/grib_fortran.c:908-992 | A thread at the end of its calls has had all their operations take effect, in order, and one answer to each |
| `ErrorFiles.ErrorFilesDiffer` | grib-api/fortran/grib_fortran.c:861-878 | For every schedule after which no dump is under way: all error files named differ if and only if never two dumps were between raising the count and naming their file |
| `ErrorFiles.GivenAreNamed` | grib-api/fortran/grib_fortran.c:868-873 | The numbers a thread has used are, in order, those of the names given to it along the schedule |
| `ErrorFiles.ErrorFilesCanCoincide` | grib-api/fortran/grib_fortran.c:869-873 | The failing schedule: two threads name the same error file, for the count is read again after the mutex has been let go |
| `UnlockedFiles.WriteIsWholeCall` | grib-api/fortran/grib_fortran.c:151-186 | A write to the unguarded file list after a walk acts as the whole open or close would at that moment if and only if the place walked to is still the one to write at |
| `UnlockedFiles.SequentialExactlyInPlace` | grib-api/fortran/grib_fortran.c:578-590 | For every schedule of threads: list, answers and closed files are at all points those of the calls made one after another if and only if every write is made in place |
| `UnlockedFiles.NoOverlapIsSequential` | grib-api/fortran/grib_fortran.c:151-186 | So they are whenever no two calls are between walk and write at once |
| `UnlockedFiles.OverlappingOpensLoseAFile` | grib-api/fortran/grib_fortran.c:158-165 | The failing input: two overlapping first opens both answer 50000, and one file is lost |
| `Calendar.QLeap` | src/util.c:462-479 | For every year, negative ones included, the truncating divisions compute the Gregorian leap rule |
| `Calendar.MonthsAlternate` | src/util.c:410-453 | The month lengths the table is held against: 30 and 31 in turn, with July and August both 31, and February by the leap rule |
| `Calendar.TimeAdd` | src/util.c:408-454 | For any offset that does not make the month negative, and also when both arguments are one object, the in-place additions and nested loops with the stop flag end, and leave in the offset the value `AddTime` whose meaning the lemmas below give |
| `Calendar.CarryInPlace` | src/util.c:439-453 | The loop with the leap-February stop flag ends with all surplus days carried |
| `Calendar.CarryKeepsMinutes` | src/util.c:439-453 | Carrying days into months and years keeps the absolute minutes, and ends in a valid date if and only if the day is at least 1 and the clock time is one |
| `Calendar.AddTimeIsExact` | src/util.c:408-454 | The sum is exactly the offset's days, hours and minutes after the start shifted by the offset's months and years, negative ones included; the month stays 0 exactly when the sum of months is 0 and no day is left to carry out of it; the sum is a valid date if and only if no sum of minutes, hours or days falls below its unit |
| `Calendar.NonNegativeOffsets` | src/util.c:408-454 | For a valid start and an offset without negative parts the sum is a valid date |
| `Calendar.MinutesAreCanonical` | src/util.c:408-454 | Absolute minutes are injective on valid dates and order them as the calendar does |
| `Calendar.TomorrowIsOneDayLater` | src/util.c:439-453 | The day count agrees with the calendar: the day after a date counts one more |
| `Calendar.AddHoursIsTheOnlyAnswer` | src/util.c:427-453 | A date is the result of adding h hours if and only if it is valid and 60 h minutes later |
| `Calendar.AddingHoursComposes` | src/util.c:408-454 | Adding h1 hours and then h2 hours is adding h1 + h2 hours |
| `Calendar.AddingHoursIsIncreasing` | src/util.c:408-454 | The results of two hour offsets are in chronological order if and only if the offsets are in order |
| `Calendar.ForecastEndsAreSixHoursApart` | src/generateTimeIntegratedSurfaceNetSolarRadiation.c:35-51 | The interval ends of consecutive forecast steps are valid dates exactly 360 minutes apart |
| `CastList.TypeCheck` | grib-api/python/gribapi_swig_wrap.c:401-423 | Answers what a linear search of the old list by name would; the list stays doubly linked with the found node at the head |
| `CastList.TypeCheckStruct` | grib-api/python/gribapi_swig_wrap.c:428-450 | The same for a search by type |
| `CastList.FoundIsFirst` | grib-api/python/gribapi_swig_wrap.c:401-450 | What a lookup answers is the node of the first entry with that name, or that type |
| `CastList.LookupMovesToFront` | grib-api/python/gribapi_swig_wrap.c:409-417 | The entry found is taken out and put in front of the others, which keep their order |
| `CastList.TypeInfo.Lookup` | grib-api/python/gribapi_swig_wrap.c:404-421 | Both checks: same nodes, valid links both ways, only the found node moved |
| `CastList.TypeInfo.MoveToTop` | grib-api/python/gribapi_swig_wrap.c:409-417 | The six pointer writes turn the list into the one with that node at the front |
| `CastList.LookupPermutes` | grib-api/python/gribapi_swig_wrap.c:401-450 | A lookup permutes the entries; distinct nodes stay distinct and coherent names stay coherent |
| `CastList.LookupChangesAnswer` | grib-api/python/gribapi_swig_wrap.c:401-450 | A lookup changes the answer of a later one if and only if it moves to the front an entry the later one also matches but would not have reached first |
| `CastList.HistoryDoesNotMatter` | grib-api/python/gribapi_swig_wrap.c:401-450 | If equal names mean equal types, then after any history of lookups each lookup answers as a linear search of the original list |
| `CastList.IncoherentListRemembers` | grib-api/python/gribapi_swig_wrap.c:401-450 | If two types share a name, some single lookup changes the answer of another: the condition above is needed |
| `CastList.NameLookupsNeverMatter` | grib-api/python/gribapi_swig_wrap.c:401-423 | A history of name lookups alone never changes a name lookup, whatever the names |
| `CastList.TypeInfo.Add` | grib-api/python/gribapi_swig_wrap.c:8448-8488 | One turn of the loop on the linked list: links stay valid and the entries become those of `AddCast` |
| `CastList.FillCastList` | grib-api/python/gribapi_swig_wrap.c:8446-8488 | The whole loop on the linked list |
| `CastList.OwnCastsAreListedBackwards` | grib-api/python/gribapi_swig_wrap.c:8446-8488 | On a type of the module itself the list becomes the declared casts, last first, each casting from the loaded type of its name if there is one and else from its own, before the old list |
| `CastList.LoadedTypeGetsNewCasts` | grib-api/python/gribapi_swig_wrap.c:8461-8488 | A type found loaded keeps its casts and gets, as declared, just those that are not loaded or were not listed |
| `CastList.AddCastsNames` | grib-api/python/gribapi_swig_wrap.c:8446-8488 | The list ends up with exactly the names it had and those declared |
| `CastList.AddCastsKeepsNamesDistinct` | grib-api/python/gribapi_swig_wrap.c:8446-8488 | No name gets listed twice if none was declared twice and a list found loaded names only loaded types |
| `ModuleQuery.Search` | grib-api/python/gribapi_swig_wrap.c:543-566 | The binary search with its unsigned index ends; it finds only entries of that name, and in a sorted table it finds the name if and only if it is listed |
| `ModuleQuery.Query` | grib-api/python/gribapi_swig_wrap.c:537-571 | On any ring in which `end` is reached from `start` the search ends; over sorted tables it answers the module and index a linear search would |
| `ModuleQuery.LinearQueryFindsFirst` | grib-api/python/gribapi_swig_wrap.c:537-571 | That linear search answers the first module in order that lists the name and its first position there, or none |
| `HexCodec.PackData` | grib-api/python/gribapi_swig_wrap.c:612-622 | Writes exactly the packed characters and returns the position after them; the rest of the buffer is unchanged |
| `HexCodec.UnpackData` | grib-api/python/gribapi_swig_wrap.c:628-650 | Succeeds if and only if the characters are lower-case hex digits; then repacking the bytes gives the characters back, two per byte are consumed, and nothing beyond a NUL is read; on failure exactly the bytes before the first bad pair have been written |
| `HexCodec.EncodeIsInjective` | grib-api/python/gribapi_swig_wrap.c:612-622 | Two byte strings never pack alike |
| `HexCodec.EncodedDigits` | grib-api/python/gribapi_swig_wrap.c:612-622 | Characters 2 i and 2 i + 1 are the digits of the high and the low half of byte i |
| `HexCodec.EncodeIsHex` | grib-api/python/gribapi_swig_wrap.c:612-622 | Packed data is lower-case hex throughout |
| `HexCodec.UnpackInvertsPack` | grib-api/python/gribapi_swig_wrap.c:612-650 | Packed data is accepted, and the only bytes it unpacks to are those packed |
| `HexCodec.PackVoidPtr` | grib-api/python/gribapi_swig_wrap.c:656-664 | Succeeds if and only if underscore, digits, name and NUL fit; nothing beyond the given size is written |
| `HexCodec.UnpackVoidPtr` | grib-api/python/gribapi_swig_wrap.c:667-677 | Answers the name for the string NULL, the position after the digits for a packed pointer, and failure for anything else, with what has been written in each case |
| `HexCodec.PointerRoundTrip` | grib-api/python/gribapi_swig_wrap.c:656-677 | A packed pointer unpacks to its own bytes only, and what is left of the string is the type name |
| `FortranStrings.CastChar` | grib-api/fortran/grib_fortran.c:119-133 | Within len + 1 characters, the buffer holds a C string with the text `CastText`; a NULL or empty string is refused and nothing written |
| `FortranStrings.PrintableTextIsKept` | grib-api/fortran/grib_fortran.c:119-133 | A printable string is its own C text, whether blanks follow or it fills its buffer |
| `FortranStrings.TextIsCut` | grib-api/fortran/grib_fortran.c:126-130 | At another character the text ends before it, except that the last character is kept unless it is a blank or NUL |
| `FortranStrings.CzstrToFortran` | grib-api/fortran/grib_fortran.c:135-141 | The buffer holds the text up to its NUL (or its last character), and blanks; nothing beyond len changes |
| `FortranStrings.FortCharClean` | grib-api/fortran/grib_fortran.c:143-148 | The buffer is blank; nothing beyond len changes |
| `FortranStrings.DeliveriesPadAlike` | grib-api/fortran/grib_fortran.c:135-148 | A string written with its NUL and one written over a blanked buffer become the same Fortran string |
| `FortranStrings.FortranRoundTrip` | grib-api/fortran/grib_fortran.c:119-148 | A string survives the way to Fortran and back if and only if it is printable, blank-free and shorter than the Fortran length |
| `FixedWidth.Pack` | grib-api/python/grib_interface.c:1305-1316 | Succeeds if and only if every value fits its slot, with error code -6 otherwise; the buffer then holds the blank-padded slots in order and is unchanged behind them |
| `FixedWidth.SlotAt` | grib-api/python/gribapi.py:982-984 | The slice Python takes for value i is value i and blanks |
| `FixedWidth.Unpack` | grib-api/python/gribapi.py:980-985 | Each result is the stripped slice of its slot, whatever the Python at hand takes for white space besides the blank |
| `FixedWidth.PackedListRoundTrip` | grib-api/python/gribapi.py:972-987 | For any notion of white space that includes the blank: Python recovers each value stripped of trailing white space, in order; it recovers the list itself if and only if no value ends in white space |
| `FileNames.PaddedOrder` | src/util.c:365-367 | `strcmp` on zero-padded numbers of one width is the order of the numbers |
| `FileNames.DateStringsAreChronological` | src/util.c:383-391 | `strcmp` on two printed dates is negative if and only if the first date is earlier |
| `FileNames.CutoverIsChronological` | src/util.c:351-354 | The `strcmp` cutover is the chronological comparison with 12 UTC on 23 September 2020, for every year from 0 to 9999 |
| `FileNames.CycleSizes` | src/util.c:359-391 | 21 members on a grid of 181 x 360 before the cutover, 31 on one of 361 x 720 from it on, for the program and the script |
| `FileNames.InputNameReads` | src/util.c:333-357 | The input name is the format of the source from left to right, with its letters, widths and endings either side of the cutover |
| `FileNames.InputsAre` | src/ncdcTigge.c:150-175 | Two files for each of 65 steps of six hours and each of the 21 or 31 members |
| `FileNames.SourcePathAtCutover` | scripts/link_input.py:20-24 | The directory of the first cycle of the new layout, character by character |
| `FileNames.SourcePathBeforeCutover` | scripts/link_input.py:20-24 | And of the last cycle of the old one |
| `FileNames.NamesAgree` | scripts/link_input.py:27-31 | The script and the program print the same name for the same file if and only if the platform prints `%Y` as the year in four digits |
| `FileNames.LinkedAreOpened` | scripts/link_input.py:87-92 | For any year the platform prints as a numeral, the names the script links are exactly those the main loop opens if and only if that numeral is the year in four digits |
| `FileNames.CreatedAreLinked` | scripts/link_input.py:55-84 | The links `main` creates, by the base names of the source files, are exactly those `get_link_filenames` lists, wherever the sources are |
| `FileNames.InputNamesAreDistinct` | src/util.c:333-357 | Equal input names mean equal file letter, cycle, forecast hour and member |
| `FileNames.IdOf` | src/util.c:52-85 | The id answered belongs to the variable with exactly that short name; -1 is answered only for a name no variable has |
| `FileNames.ShortNamesAre` | src/ncdcTigge.h:37-50 | The fourteen names by their numbers |
| `FileNames.OutputNameReads` | src/util.c:259-314 | The output name is the format of the source from left to right: cf exactly for member 0, pv and 0002 exactly for potential temperature |
| `FileNames.OutputNamesAreDistinct` | src/util.c:259-314 | Equal output names mean equal variable, cycle, forecast hour and member |
| `GribScan.LoadNetRadiation` | src/generateTimeIntegratedSurfaceNetSolarRadiation.c:202-383 | The stored field is the net of the first two fluxes found in A then B (a blank standing in when missing input is ignored); on success every handle opened is deleted, once, and both files are rewound |
| `GribScan.FindPair` | src/generateTimeIntegratedSurfaceNetSolarRadiation.c:230-300 | The scan ends with the first two fluxes in hand and every other handle deleted, or fails |
| `GribScan.NetIsDownMinusUp` | src/generateTimeIntegratedSurfaceNetThermalRadiation.c:182-296 | Unless the first two fluxes are of the same kind, the field is record 192 minus record 193 at every point, whichever came first, a missing one counting as zero |
| `GribScan.NetOfTwo` | src/generateTimeIntegratedSurfaceNetSolarRadiation.c:240-321 | In terms of the records: with the first two of discipline 0, the category, number 192 or 193 and level type 1, the field is first less second if they are 192 and 193, else second less first |
| `GribScan.NetOfOne` | src/generateTimeIntegratedSurfaceNetSolarRadiation.c:252-300 | With one such record the load fails, or stores it (192) or its negation (193) when missing input is ignored |
| `GribScan.NetOfNone` | src/generateTimeIntegratedSurfaceNetSolarRadiation.c:252-300 | With none the load fails, or stores zeros |
| `GribScan.NetNeedsBothKinds` | src/generateTimeIntegratedSurfaceNetSolarRadiation.c:309-321 | For any two or more fluxes in the files, the rule that the net is the first 192 minus the first 193 holds for all their values if and only if the first two are of different kinds |
| `GribScan.OrderDoesNotMatter` | src/generateTimeIntegratedSurfaceNetSolarRadiation.c:304-339 | With at most one flux of each kind, the field depends only on which flux records there are, not on their order or file |
| `GribScan.LoadFlux` | src/generateTimeIntegratedOutgoingLongWaveRadiation.c:174-235 | The values of the first record with the keys in A then B, zeros if there is none and missing input is ignored, failure otherwise; no handle stays open either way |
| `GribScan.FirstWithIsFirst` | src/generateTimeIntegratedOutgoingLongWaveRadiation.c:186-200 | What it finds is the first record of discipline 0 with that category, number and level type, and nothing only if there is none |
| `GribScan.LoadPrecip` | src/generateTotalPrecipitation.c:141-204 | A placeholder for the member's first record, then the first precipitation record of what is left of the A file, which is not rewound first, or failure with A at its end; no handle stays open |
| `GribScan.FirstPrecipIs` | src/generateTotalPrecipitation.c:161-176 | What it finds is the first record of discipline 0, category 1, number 8 |
| `GribScan.LoadSnow` | src/generateTimeIntegratedSnowFallWaterEquivalent.c:472-687 | The masked precipitation, or zeros when a record is missing; it never fails, leaves no handle open and both files rewound |
| `GribScan.SnowFieldIs` | src/generateTimeIntegratedSnowFallWaterEquivalent.c:527-656 | In terms of the records: the field is the precipitation (8) of record p where flag (195) q is 1 and zero elsewhere, q and p being the first of one kind and the last of the other before it |
| `GribScan.SnowFieldIsZero` | src/generateTimeIntegratedSnowFallWaterEquivalent.c:560-590 | It is zero if there is no precipitation or no flag |
| `GribScan.ScanHasAnEnd` | src/generateTimeIntegratedSnowFallWaterEquivalent.c:527-627 | If there is a record of each kind the scan ends with some such p and q |
| `GribScan.Mask` | src/generateTimeIntegratedSnowFallWaterEquivalent.c:637-656 | Precipitation at points flagged 1, zero elsewhere |
| `GribScan.ScanFindsThePrecip` | src/generateTimeIntegratedSnowFallWaterEquivalent.c:527-627 | With one precipitation record in the step, the snow scan uses the record the precipitation loader uses |
| `GribScan.SnowIsAtMostPrecip` | src/generateTimeIntegratedSnowFallWaterEquivalent.c:637-656 | With one non-negative precipitation record, a step's snow lies between zero and its precipitation at every point |
| `PerHour.SnowWater` | src/generateSnowFallWaterEquivalent.c:118-184 | Where it leaves the files: A rewound if a snow flag follows and a precipitation record is in A, or at hour 0; A at its end otherwise |
| `PerHour.ColumnWater` | src/generateTotalColumnWater.c:89-189 | Both files rewound if it finds both waters; else the file it searched is at its end and the other where the search left it |
| `PerHour.PotentialTemperature` | src/generatePotentialTemperature.c:97-184 | Both files rewound if the four layers follow in B, the test for a southern layer taking any; else B at its end |
| `PerHour.SoilMoisture` | src/generateSoilMoisture.c:91-141 | Both files rewound if a layer follows in B and another in A; else the file it searched is at its end |
| `PerHour.SoilTemperature` | src/generateSoilTemperature.c:104-178 | Both files rewound if two layers are in A and B, searched from their starts; else both at their ends |
| `PerHour.GenerateAll` | src/ncdcTigge.c:195-202 | The five in turn leave the files where `PlaceAfterAll` says; each reads on from where the one before stopped |
| `PerHour.SnowWaterLeaves` | src/generateSnowFallWaterEquivalent.c:118-240 | In terms of the records: A is rewound exactly if a flag (0, 1, 195) follows and precipitation (0, 1, 8) is in A, or at hour 0; it is at its end otherwise |
| `PerHour.ColumnWaterLeaves` | src/generateTotalColumnWater.c:89-189 | Both rewound exactly if (0, 1, 3) of level type 200 follows in A and (0, 6, 6) of level type 200 in B; what has been read otherwise |
| `PerHour.PotentialTemperatureLeaves` | src/generatePotentialTemperature.c:97-308 | Both rewound exactly if pressure and temperature on surface 109 follow twice each in B, once at height 2000; B at its end otherwise |
| `PerHour.SoilMoistureLeaves` | src/generateSoilMoisture.c:91-189 | Both rewound exactly if a layer (2, 0, 192) of level type 106, height 0 or 10, follows in B and another in A; what has been read otherwise |
| `PerHour.SoilTemperatureLeaves` | src/generateSoilTemperature.c:104-223 | Both rewound exactly if A and B hold two layers (2, 0, 2) of level type 106, height 0 or 10; both at their ends otherwise |
| `PerHour.RewindsIfThere` | src/ncdcTigge.c:195-202 | From the starts of two files that are not empty, each of the five leaves them at their starts exactly if they hold its records |
| `PerHour.FoundRecordsRewind` | src/ncdcTigge.c:195-202 | If the files hold the records of every queued one, all in turn leave them at their starts |
| `PerHour.InTurn` | src/ncdcTigge.c:198-202 | The five by their short names, called in the order sf6, tcw, pt, sm, st |
| `Integration.Generate` | src/generateTimeIntegratedSurfaceNetSolarRadiation.c:35-131 | All 65 outputs: the name, the interval end and the field c times the sum over steps 1 to k of every point |
| `Integration.AccumulateStep` | src/generateTimeIntegratedSurfaceNetSolarRadiation.c:69-131 | One step turns the sums up to k - 1 into those up to k and emits their multiple |
| `Integration.EndOfInterval` | src/generateTotalPrecipitation.c:92-97 | The end of the interval, which total precipitation leaves at the start date |
| `Integration.IntervalEnds` | src/generateTotalPrecipitation.c:92-97 | Total precipitation (11) ends at the start of the run; any other interval is valid and ends 360 minutes a step later |
| `Integration.EmittedIsMeanTimesElapsed` | src/generateTimeIntegratedSurfaceNetSolarRadiation.c:85-117 | The explanation in the source: the emitted value is the mean flux of the k intervals times the 21600 k seconds elapsed |
| `Integration.DifferencesRecoverInputs` | src/generateTimeIntegratedSurfaceNetThermalRadiation.c:69-84 | The difference of consecutive outputs divided by c is the input of the step between |
| `Integration.OutputsDetermineInputs` | src/generateTimeIntegratedOutgoingLongWaveRadiation.c:77-95 | Equal outputs up to step k come from equal inputs at steps 1 to k |
| `Integration.IntervalsAreSixHours` | src/generateTimeIntegratedSurfaceNetSolarRadiation.c:45-51 | Interval ends are valid dates, and consecutive ones are 360 minutes apart if and only if the variable is not total precipitation |
| `Integration.AccumulationsCompare` | src/generateTotalPrecipitation.c:58-69 | If one series lies between zero and another at a point, so do their accumulations, and neither accumulation ever goes down |
| `RecordBuffers.Tigge.AddRecord` | src/loadDataForVariable.c:25-58 | The array grows by one and the record and its length are stored at the old count; a length past the table is undefined |
| `RecordBuffers.Tigge.Free` | src/loadDataForVariable.c:143-153 | Every saved record is freed and set to NULL and the count returns to zero; the array and the lengths stay |
| `RecordBuffers.FreedRecordsAreNull` | src/loadDataForVariable.c:143-153 | Entry by entry: what was saved is NULL, and the rest of the array and the lengths are what they were |
| `RecordBuffers.Tigge.LoadMember` | src/ncdcTigge.c:150-212 | The 65 steps of a member apply each variable's loads to that variable's state only |
| `RecordBuffers.Tigge.RunMemberChecked` | src/ncdcTigge.c:136-240 | A member keeps a clean state clean if and only if its loads succeed, and then puts out what its own loads determine; nothing mends an undefined state |
| `RecordBuffers.Tigge.GenerateMember` | src/ncdcTigge.c:217-225 | The generators' outputs in order, each from its variable's own buffer |
| `RecordBuffers.OutputsInTurn` | src/ncdcTigge.c:223-229 | The generators are called in the order 5, 6, 9, 2, 7, 8, 11 |
| `RecordBuffers.LoadsLineUp` | src/loadDataForVariable.c:25-58 | Whatever an earlier member left, record k is the one loaded at hour 6 k of this member with its length beside it, and every length is written inside the table |
| `RecordBuffers.FailuresShowInCount` | src/loadDataForVariable.c:74-130 | A failed load is never made up for: the count stays below the number of steps |
| `RecordBuffers.MemberIsIsolated` | src/ncdcTigge.c:136-240 | From any clean state a member passes without undefined behaviour if and only if all its loads succeed; then its generator reads exactly its own 65 records (64 for precipitation) and the next member finds a clean state |
| `RecordBuffers.Run` | src/ncdcTigge.c:136-247 | A run over any members does nothing undefined if and only if every queued load succeeds, and then puts out the members' own outputs one after another |
| `RecordBuffers.MembersRunAlone` | src/ncdcTigge.c:136-247 | The outputs of member m in a run are those of running m alone |
| `Pipeline.LoadVariable` | src/loadDataForVariable.c:74-130 | The dispatch to the seven loaders, from wherever the files are: the stored field is `FieldOf` what is left of them; a success leaves no handle open and what was read rewound, a failure leaves it at its end |
| `Pipeline.LoadHour` | src/ncdcTigge.c:155-212 | The seven loads of an hour, one after the other on the same two files with the per-hour variables in between, each store what `Task.Loads` says |
| `Pipeline.HourInputs` | src/ncdcTigge.c:186-209 | Every queued variable finds its input in the hour, wherever those before it left the files, if and only if each queued flux is in the files and, for precipitation, a record is left where the per-hour variables leave A |
| `Pipeline.OneFailureFailsTheFluxes` | src/ncdcTigge.c:186-190 | One missing flux fails every flux loaded after it, in the order ttr, slhf, sshf, ssr, str, whatever the files hold |
| `Pipeline.OneFailureFailsPrecipitation` | src/ncdcTigge.c:186-208 | After a missing flux precipitation is found if and only if soil temperature is queued and found, which rewinds, and the A file has it |
| `Pipeline.FluxSeesWholeFiles` | src/ncdcTigge.c:186-190 | A flux that is found was looked for in the whole files |
| `Pipeline.FoundInstantsKeepPrecip` | src/ncdcTigge.c:195-208 | If the files hold the records of the queued per-hour variables, precipitation is looked for in the whole A file |
| `Pipeline.ColumnWaterLosesPrecipitation` | src/generateTotalColumnWater.c:97-100 | The failing input: with column water and precipitation queued, and only precipitation in the files, its record has been passed when its loader looks for it |
| `Pipeline.SnowFlagMissingLosesPrecipitation` | src/generateSnowFallWaterEquivalent.c:127-131 | After hour 0, a missing snow flag fails the precipitation load whenever snow fall is queued and neither of the variables that could rewind is |
| `Pipeline.FieldOf` | src/loadDataForVariable.c:95-128 | A load succeeds if and only if its records are left in the files, or missing input is ignored (for precipitation: it is the first of the member); the field fits the grid |
| `Pipeline.SingleFluxesAre` | src/generateTimeIntegratedOutgoingLongWaveRadiation.c:186-200 | The record used is the first of category 5, number 193, level type 8 for ttr; 0, 10, 1 for slhf; 0, 11, 1 for sshf |
| `Pipeline.SingleFluxesAreMissing` | src/generateTimeIntegratedOutgoingLongWaveRadiation.c:186-200 | Their input is missing exactly if no record of the files has these keys |
| `Pipeline.NetFluxesAreMissing` | src/generateTimeIntegratedSurfaceNetSolarRadiation.c:240-300 | The input of ssr (category 4) and str (category 5) is missing exactly if the files hold no two surface fluxes of it |
| `Pipeline.InputsDecideRun` | src/ncdcTigge.c:155-209 | All loads of a run succeed if and only if every queued variable finds its records, where its loader looks for them, at every step from hour 6 on |
| `Pipeline.RunInputs` | src/ncdcTigge.c:155-209 | In terms of the input files alone: so they do if and only if the files of every step from hour 6 on are complete |
| `Pipeline.SeriesComeFromFiles` | src/ncdcTigge.c:150-225 | The records a generator is given are, step by step, what the same member's own files hold |
| `Pipeline.NetRadiationIsDownMinusUp` | src/generateTimeIntegratedSurfaceNetSolarRadiation.c:43-131 | The solar and thermal fields archived for step k are 21600 times the sum of (192) - (193) over the input files of steps 1 to k |
| `Pipeline.FluxTurnsSign` | src/generateTimeIntegratedOutgoingLongWaveRadiation.c:77-95 | The outgoing and heat flux fields archived for step k are -21600 times the sum of the input records of steps 1 to k |
| `Pipeline.PrecipitationIsSummed` | src/generateTotalPrecipitation.c:66-67 | The total precipitation archived for step k is the sum of that of the steps 1 to k, unscaled |
| `Pipeline.SnowIsWithinPrecipitation` | src/generateTimeIntegratedSnowFallWaterEquivalent.c:111-133 | From files to archive: archived snow never exceeds archived precipitation of the same member and step, and neither goes down |
| `Pipeline.SnowIsFlaggedPrecipitation` | src/generateTimeIntegratedSnowFallWaterEquivalent.c:527-656 | From files to archive: archived snow is the sum of the precipitation of exactly the steps whose flag at the point is 1 |
| `Pipeline.SnowIsFlagged` | src/generateTimeIntegratedSnowFallWaterEquivalent.c:637-656 | A step is flagged at a point exactly if the flag record the scan ends with is 1 there, and nowhere if the file has no flag |
| `Pipeline.RunJobs` | src/ncdcTigge.c:136-225 | A good run calls a generator for each member and queued variable, once, on that member's own records |
| `Pipeline.Archive` | src/ncdcTigge.c:136-247 | End to end: it stops with status 1 at the first member with an input file that cannot be opened; for the members before it, nothing undefined happens if and only if the input files of every step from hour 6 on are complete, and then the outputs cover every one of these members and queued variables once, each being the 65 files that member's input determines |
| `Pipeline.WrittenFile` | src/generateTimeIntegratedSurfaceNetSolarRadiation.c:35-131 | Each of the 65 files: its name for hour 6 k, its interval end, and as its field the one archived for step k |
| `Pipeline.NothingIsOverwritten` | src/util.c:259-314 | No two output files of a run have the same name |

## Left out

- Registry.HandleSet.Push: memory that cannot be allocated is not modelled; `malloc` always succeeds.
- Registry.HandleSet.Clear: the message buffer that a Fortran file id also frees is not modelled.
- Registry.Serve: the registries of indexes, multi-field handles, iterators and key iterators have the shape of the handle registry, apart from what clearing answers and whether it checks for NULL, and are not repeated.
- LockProtocol.ConcurrentCallsAreSequential: whether a new iterator is pushed is left open (`made`) rather than tied to the handle found, and the dump of a message to a file always takes place; `next` on an iterator and other work on the objects themselves is not modelled; nothing is said about fairness.
- UnlockedFiles.SequentialExactlyInPlace: a walk is one step and a write one step; a list that changes while a thread is walking along it is not modelled. Looking up a file, which writes nothing, is left out.
- Calendar.TimeAdd: an offset that makes the month negative is excluded; the code then reads before its table of month lengths.
- CastList.FillCastList: the casts a module declares are fresh and distinct, as in its initial tables; copying client data and the outer loop over types are not modelled.
- ModuleQuery.Query: a ring from which `end` is never reached is excluded, for there the search need not end; the second stage of `SWIG_TypeQueryModule`, by readable names, is not modelled.
- FixedWidth.Pack: looking up the index and `grib_index_get_string` of the library are not modelled; values are given.
- FileNames.LinkedAreOpened: directory names with a percent sign, which `strftime` would interpret, are excluded; years after 9999 do not fit the names.
- GribScan.LoadNetRadiation: reading a record is exact and never fails before the end of the file; storing a field and reading it back gives the same values.
- GribScan.LoadSnow: end of file is where no record is left; the unreadable record before the end, for which the code answers NULL, is not modelled.
- Integration.Generate: fields are reals without rounding, dates unbounded integers; the GRIB keys of the output other than name, interval end and values are not modelled, nor is the skipping of a missing record by the snow and outgoing radiation generators, which does not occur when all loads succeed.
- RecordBuffers.Run: `realloc` never fails.
- Pipeline.LoadHour: of the variables computed per forecast hour (potential temperature, soil moisture and temperature, column water, instant snow fall) only where they leave the input files is modelled, not their fields, their outputs and the handles they leave open.
- Pipeline.Archive: the field sizes the library stores are given (`size`), and the opening of files is a parameter (`opens`).
- The process queue of src/util.c is a set of variables.
- `TEST_VARIABLE_TI` (13) does not index the tables of 13 variables and is not one of those loaded.
- Fixed sizes of character buffers in src/util.c: names are sequences of any length.
- GRIB encoding and decoding, templates, JPEG 2000 packing, the archive and transfer scripts, timing and messages.
- Python reference counts, numpy conversions and the generated wrapper functions; `grib_f77.c` and other forwarding wrappers.
