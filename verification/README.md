# PS5 backend of SDL 2 — a Dafny model

This project models the sequential logic in the PlayStation 5 port of SDL 2. The logic sits behind the console's system calls and covers five drivers:

- **Video.**
  - The screen size is "rounded" with the `(n + 0x4f) & ~0x4f` mask.
  - `PS5_DrawPixelsAsTiles` copies the linear surface into the console's tiled layout.
  - `PS5_UpdateWindowFramebuffer` runs the two-buffer swap chain and its `frame_id` counter.
  - The two scanout buffers are carved out of one direct-memory region.
  - `PS5_VideoQuit` is guarded so that it closes only once.
- **Joystick.**
  - `analog_map` is the 256-entry byte-to-axis table, and `btn_map` holds the 17 button masks, with `-1` for the guide button.
  - `PS5_JoystickUpdate` diffs the previous and current pad states into axis, button and hat events.
  - The four-slot `pad_ctx` table is read and written by `Init`, `Detect`, `GetCount`, `Open`, `Close` and the device-index queries.
- **Keyboard.**
  - `PS5_Keyboard_PumpEvents` diffs the modifier bits and the 16 scan-key slots.
  - The guards in `PS5_Keyboard_Open`, `PS5_Keyboard_Close` and `PS5_Keyboard_Init` are modelled too.
- **Audio.**
  - `PS5AUDIO_SampleSize` quantises the sample count.
  - `PS5AUDIO_OpenDevice` picks the first supported format, normalises the spec and slices the mixing buffer.
  - `PS5AUDIO_PlayDevice` and `PS5AUDIO_GetDeviceBuf` drive the two-slot ring.
  - `PS5AUDIO_CloseDevice` releases the device.
- **Filesystem.**
  - `SDL_GetBasePath` derives the base path from `argv[0]` and the working directory.
  - `SDL_GetPrefPath` assembles the preference path from the user-id prefix, org and app.
  - The model also covers the exact sequence of directories that `SDL_GetPrefPath` hands to `mkdir`.

Every call into the console's libraries becomes an input of the step function that models its caller. That covers `sceVideoOut*`, `sceKernel*`, `scePad*`, `sceKeyboard*`, `sceAudioOut*`, `sceUserService*`, `getcwd`, `malloc` and `posix_memalign`. The C statics are explicit values passed in and returned: `frame_id`, `pad_ctx`, `g_handle`/`g_prev`, the audio device's hidden data and `first_run`. Events the drivers would hand to SDL are returned as lists, in emission order. The handle and user-id arguments of the pad and keyboard calls are not recorded: `scePadOpen`'s user id, the `ctx->handle` passed to `scePadClose` and `scePadReadState`, and the `g_handle` passed to the `sceKeyboard*` calls. So the models' handle fields are written but no contract reads them.

There is one module per driver (`Video`, `Joystick`, `Keyboard`, `Audio`, `Filesystem`), plus `Common` for the shared option, status and integer types.

## Model

| member | source | states |
|---|---|---|
| Video.MaskRound | src/video/ps5/SDL_ps5video.c:76-77 | the mask result lies in [n, n+79] and is a multiple of 16, provided n + 79 fits the C `int` |
| Video.RegisteredMode | src/video/ps5/SDL_ps5video.c:172-176 | the registered display mode is 1920x1152 at 60 Hz, and it has exactly the width and height the draw loop uses |
| Video.MaskRoundIsNotTileRounding | src/video/ps5/SDL_ps5video.c:76-77 | the mask is not a round-up to a tile multiple: 1 gives 16, 33 and 48 both give 48, yet 49 and 64 both give 128 |
| Video.DstIndexInFrame | src/video/ps5/SDL_ps5video.c:79-86 | with a bijective swizzle table and a frame of whole tiles, every source pixel's destination index is inside the w*h frame |
| Video.DstIndexInjective | src/video/ps5/SDL_ps5video.c:83-86 | two distinct source pixels never land on the same destination index |
| Video.DstIndexSurjective | src/video/ps5/SDL_ps5video.c:83-86 | every destination index below w*h is written by some source pixel |
| Video.TiledCopyUnique | src/video/ps5/SDL_ps5video.c:79-88 | the tiled copy's result is fully determined: each frame index holds its one source pixel and everything past the frame keeps its old content |
| Video.DrawPixelsAsTiles | src/video/ps5/SDL_ps5video.c:74-89 | the row-by-row loop stores `src[y*w+x]` at `TILE_SIZE*(x/TW + (y/TH)*(w/TW)) + tilemap[y%TH][x%TW]` for every pixel, and leaves the rest of the buffer untouched |
| Video.UnitGeometry | src/video/ps5/SDL_ps5video.c:83-85 | 1x1 tiles with the table [[0]] are a valid geometry |
| Video.UnitTilesAreIdentity | src/video/ps5/SDL_ps5video.c:79-88 | with 1x1 tiles the tiled copy is a straight copy of the frame, which pins the index formula against the linear one |
| Video.BufferOffset | src/video/ps5/SDL_ps5video.c:165-166 | each scanout buffer starts at a multiple of half the region and ends inside it |
| Video.BuffersDisjointAndLargeEnough | src/video/ps5/SDL_ps5video.c:126-166 | buffer 0 ends where buffer 1 starts, and buffer 1 ends at the end of the 0x20000000-byte region; each half holds a 1920x1152 frame of 4-byte pixels |
| Video.TiledFrameFitsInBuffer | src/video/ps5/SDL_ps5video.c:165-166 | every 4-byte pixel the tiled copy writes lies inside its half of the region |
| Video.AdvanceFrame | src/video/ps5/SDL_ps5video.c:95-115 | `frame_id++` wraps at 2^32 and always switches the buffer `frame_id % 2` selects, even across the wrap |
| Video.BufferIndicesAlternate | src/video/ps5/SDL_ps5video.c:95-115 | after n successful updates from 0 the counter is n mod 2^32 and the buffer index is n mod 2, so indices run 0,1,0,1,… |
| Video.UpdateWindowFramebuffer | src/video/ps5/SDL_ps5video.c:91-118 | missing surface: an error, nothing drawn or submitted. Otherwise buffer `frame_id % 2` receives the tiled frame read from the surface's pixels followed by the memory after them, the other buffer is untouched, and the flip is submitted with that index, rate 1 and `frame_id` as token. The counter advances exactly when submit and wait both succeed |
| Video.VideoQuit | src/video/ps5/SDL_ps5video.c:188-196 | close is called, with the handle, exactly when the handle is non-zero, and the handle is 0 afterwards |
| Video.VideoQuitIdempotent | src/video/ps5/SDL_ps5video.c:188-196 | a second quit closes nothing and ends in the same state |
| Joystick.AnalogMapStep | src/joystick/ps5/SDL_ps5joystick.c:52-80 | consecutive table entries never decrease, and they strictly increase except between 127 and 128 |
| Joystick.AnalogMapOdd | src/joystick/ps5/SDL_ps5joystick.c:52-80 | the table is antisymmetric: `map[b] == -map[255-b]` for every byte |
| Joystick.AnalogMapMonotone | src/joystick/ps5/SDL_ps5joystick.c:52-80 | the table is non-decreasing over all byte pairs |
| Joystick.AnalogMapStrict | src/joystick/ps5/SDL_ps5joystick.c:52-80 | the table is injective apart from the 127/128 dead-zone pair |
| Joystick.AnalogMapRange | src/joystick/ps5/SDL_ps5joystick.c:52-80 | every entry lies in [-32767, 32767], inside the SDL axis range |
| Joystick.AnalogMapDeadZone | src/joystick/ps5/SDL_ps5joystick.c:52-80 | an entry is 0 exactly at bytes 127 and 128 |
| Joystick.PadEventsAxis | src/joystick/ps5/SDL_ps5joystick.c:199-223 | an axis event (a, v) is emitted exactly when axis a's byte changed, and v is `analog_map` of the new byte |
| Joystick.PadEventsButton | src/joystick/ps5/SDL_ps5joystick.c:226-235 | a button event for index b is emitted exactly when `(prev ^ cur) & btn_map[b]` is non-zero; it is PRESSED exactly when `cur & btn_map[b]` is non-zero |
| Joystick.PadEventsHat | src/joystick/ps5/SDL_ps5joystick.c:174-250 | a hat event is emitted exactly when some button bit changed; it is hat 0, and its value is the OR of the dpad directions whose bit both changed and is now set |
| Joystick.HatIsNewlyPressedDpad | src/joystick/ps5/SDL_ps5joystick.c:236-245 | the hat accumulated by the loop equals the dpad directions of `change & cur` |
| Joystick.HatDropsHeldDirection | src/joystick/ps5/SDL_ps5joystick.c:236-249 | holding up and then adding right sends hat RIGHT, not UP\|RIGHT: a held direction that did not change is left out |
| Joystick.GuideEntryIsEveryBit | src/joystick/ps5/SDL_ps5joystick.c:88 | the guide entry `-1` masks every bit of the button word |
| Joystick.GuideTracksAnyChange | src/joystick/ps5/SDL_ps5joystick.c:226-235 | whenever any button bit changes, the guide button gets an event: PRESSED if any button is now held, RELEASED otherwise |
| Joystick.PadEventsOrder | src/joystick/ps5/SDL_ps5joystick.c:199-249 | events come out as axes, then buttons, then the hat, each group in ascending index order |
| Joystick.PadEventsOfUnchangedPad | src/joystick/ps5/SDL_ps5joystick.c:199-250 | an unchanged pad yields no events |
| Joystick.GetDeviceInstanceId | src/joystick/ps5/SDL_ps5joystick.c:102-109 | an index outside [0,4) gives -1; any other index gives that slot's instance id |
| Joystick.GetDeviceName | src/joystick/ps5/SDL_ps5joystick.c:111-118 | the name is NULL exactly for an index outside [0,4); otherwise it is "Sony DualSense" |
| Joystick.GetDeviceGuid | src/joystick/ps5/SDL_ps5joystick.c:255-266 | the GUID is 16 zero bytes for every index |
| Joystick.CountConnected | src/joystick/ps5/SDL_ps5joystick.c:284-293 | the count is the number of slots whose user id is not -1 |
| Joystick.Detect | src/joystick/ps5/SDL_ps5joystick.c:268-282 | a failed login-list query changes nothing and sets an error. Otherwise only the user ids change: an empty slot takes the listed id, and a filled slot keeps its own |
| Joystick.DetectIdempotent | src/joystick/ps5/SDL_ps5joystick.c:277-281 | detecting twice with the same login list gives the same slots as once |
| Joystick.DetectConnects | src/joystick/ps5/SDL_ps5joystick.c:277-281 | after detection the connected slots are the old ones plus those whose listed id is not -1 |
| Joystick.ClearSlots | src/joystick/ps5/SDL_ps5joystick.c:346-350 | every slot's user id, handle and instance id become -1, and the stored pad state is untouched |
| Joystick.JoystickInit | src/joystick/ps5/SDL_ps5joystick.c:342-365 | Init succeeds exactly when the user service reports 0 or 0x80960003, `scePadInit` succeeds, and detection leaves at least one slot connected. Handles and instance ids are -1 afterwards, and the connected slots are exactly the listed users when both calls succeed, none otherwise |
| Joystick.JoystickOpen | src/joystick/ps5/SDL_ps5joystick.c:295-315 | an invalid index changes nothing and fails. Otherwise the slot stores the returned handle, even a negative one, and only that slot changes. Success, exactly when the handle is non-negative, increments the instance id and reports 17 buttons, 6 axes, 1 hat and the new id |
| Joystick.OpenReportsInstanceId | src/joystick/ps5/SDL_ps5joystick.c:307-312 | the instance id an open reports is the one the device-index query returns afterwards |
| Joystick.FindSlot | src/joystick/ps5/SDL_ps5joystick.c:323-328 | the lookup returns the first slot holding the instance id, and none exactly when no slot holds it |
| Joystick.JoystickClose | src/joystick/ps5/SDL_ps5joystick.c:317-340 | an unknown or negative instance id changes nothing. Otherwise the first matching slot's handle becomes -1, whatever `scePadClose` returns, and an error is set exactly when the close fails |
| Joystick.CloseAfterOpen | src/joystick/ps5/SDL_ps5joystick.c:307-339 | closing the joystick just opened resets that slot's handle to -1 and keeps its instance id |
| Joystick.OpenedPadsShareInstanceIds | src/joystick/ps5/SDL_ps5joystick.c:295-315 | two freshly initialised slots opened one after the other both report instance id 0, and a lookup of id 0 then finds only the first |
| Joystick.JoystickUpdate | src/joystick/ps5/SDL_ps5joystick.c:168-253 | an unknown or negative instance id, or a failed read, sets an error, emits nothing and keeps the state. Otherwise the emitted events are the diff of the stored and the new pad, and the stored pad becomes the new one |
| Joystick.RepeatedUpdateIsQuiet | src/joystick/ps5/SDL_ps5joystick.c:199-252 | a second update with the same pad state emits nothing and changes nothing |
| Keyboard.ModifierBitOfXor | src/video/ps5/SDL_ps5keyboard.c:129-131 | a modifier bit of the XOR is set exactly when that bit differs between the two words |
| Keyboard.ModifierEventEntry | src/video/ps5/SDL_ps5keyboard.c:129-187 | modifier k yields an event exactly when its bit differs. The event carries k's fixed scancode (LCTRL, LSHIFT, LALT, LGUI, RCTRL, RSHIFT, RALT, RGUI) and is RELEASED exactly when the bit was set before |
| Keyboard.SlotEvent | src/video/ps5/SDL_ps5keyboard.c:189-199 | equal slot values give no event, a previous 0 gives PRESSED of the new key, and anything else gives RELEASED of the old key |
| Keyboard.SlotPressMember | src/video/ps5/SDL_ps5keyboard.c:189-199 | a PRESSED event for key c is emitted exactly when some slot went from 0 to c |
| Keyboard.SlotReleaseMember | src/video/ps5/SDL_ps5keyboard.c:189-199 | a RELEASED event for key c is emitted exactly when some slot held c and changed |
| Keyboard.KeyboardInit | src/video/ps5/SDL_ps5keyboard.c:93-108 | Init succeeds exactly when the user service reports 0 or 0x80960003 and `sceKeyboardInit` returns 0; a user-service failure is reported first |
| Keyboard.KeyboardOpen | src/video/ps5/SDL_ps5keyboard.c:58-75 | a failed foreground-user query changes nothing. Otherwise the returned handle is stored, even a non-positive one, and the open succeeds exactly when it is positive |
| Keyboard.KeyboardClose | src/video/ps5/SDL_ps5keyboard.c:77-91 | with a handle <= 0 nothing is closed and 0 is returned. Otherwise close is called, and the result is an error exactly when the close fails |
| Keyboard.Pump | src/video/ps5/SDL_ps5keyboard.c:110-204 | with no handle, on a failed read, or with no data available, nothing is emitted and the stored state is kept. Otherwise the stored state becomes the one just read |
| Keyboard.PumpEventCount | src/video/ps5/SDL_ps5keyboard.c:129-199 | one event is emitted per changed modifier bit plus one per changed slot, and no more |
| Keyboard.PumpModifierEvent | src/video/ps5/SDL_ps5keyboard.c:129-187 | the event of a changed modifier k sits at the position counted by the changed modifiers before k |
| Keyboard.PumpSlotEvent | src/video/ps5/SDL_ps5keyboard.c:189-199 | the event of a changed slot i comes after all modifier events, at the position counted by the changed slots before i |
| Keyboard.ModifierEventsInMaskOrder | src/video/ps5/SDL_ps5keyboard.c:131-186 | modifier events come out in ascending mask order |
| Keyboard.SlotEventsInSlotOrder | src/video/ps5/SDL_ps5keyboard.c:189 | slot events come out in ascending slot order |
| Keyboard.RepeatedPumpIsQuiet | src/video/ps5/SDL_ps5keyboard.c:201 | after a pump the stored state equals the one just read, so pumping the same state again emits nothing |
| Keyboard.KeySwitchReleasesOnly | src/video/ps5/SDL_ps5keyboard.c:194-198 | a slot that changes from key A to key B, both non-zero, emits only the release of A |
| Audio.SampleSize | src/audio/ps5/SDL_ps5audio.c:29-39 | the result is one of 256, 512, …, 2048; it is at most the request unless clamped up to 256, and less than 256 below it unless capped at 2048 |
| Audio.SampleSizeIsClampedRoundDown | src/audio/ps5/SDL_ps5audio.c:29-39 | the if-chain equals `clamp(256 * (s / 256), 256, 2048)` |
| Audio.SampleSizeMonotone | src/audio/ps5/SDL_ps5audio.c:29-39 | a larger request never gets fewer samples |
| Audio.SampleSizeIdempotent | src/audio/ps5/SDL_ps5audio.c:29-39 | quantising twice changes nothing |
| Audio.SampleSizeAligned | src/audio/ps5/SDL_ps5audio.c:29-39 | the sample count is a multiple of 64, as the buffer-alignment comment requires |
| Audio.Channels | src/audio/ps5/SDL_ps5audio.c:77 | one channel stays one; any other request becomes two |
| Audio.OutParamRoundTrip | src/audio/ps5/SDL_ps5audio.c:56-63 | S16LSB gives 0/1 and F32LSB gives 3/4 for mono/stereo, and the parameter determines both the format and the channel count |
| Audio.ListEnd | src/audio/ps5/SDL_ps5audio.c:55 | the format list ends at its first 0, and no format before it is 0 |
| Audio.FirstSupported | src/audio/ps5/SDL_ps5audio.c:54-67 | the search stops at the first S16LSB or F32LSB before the list's end, and finds none exactly when no format before the end is supported |
| Audio.Normalise | src/audio/ps5/SDL_ps5audio.c:74-80 | the normalised spec has the chosen format, quantised samples, 48000 Hz and one or two channels |
| Audio.OpenedHidden | src/audio/ps5/SDL_ps5audio.c:85-104 | the mixing buffer is `size * 2` zero bytes, slice i starts at `i * size`, and the ring starts at slot 0 |
| Audio.OpenDevice | src/audio/ps5/SDL_ps5audio.c:41-107 | Open succeeds exactly when the hidden data is allocated, a supported format is found, the buffer is allocated and `sceAudioOutOpen` returns at least 1. The output port is opened with the system user, main port, the quantised samples, 48000 Hz and the format's parameter. A handle below 1 leaves no buffer |
| Audio.OpenTakesFirstSupported | src/audio/ps5/SDL_ps5audio.c:54-74 | the opened format is a candidate that comes before the list's end, with no supported candidate ahead of it |
| Audio.MixbufsPartition | src/audio/ps5/SDL_ps5audio.c:100-102 | every byte of the mixing buffer lies in exactly one of the two slices |
| Audio.GetDeviceBuf | src/audio/ps5/SDL_ps5audio.c:122-125 | the buffer handed to the mixer is one of the two slices |
| Audio.PlayDevice | src/audio/ps5/SDL_ps5audio.c:109-114 | play outputs the slice the mixer was just given, then moves the ring to the other slot and changes nothing else |
| Audio.PlaysAlternate | src/audio/ps5/SDL_ps5audio.c:109-125 | n plays output slices `next, next+1, …` mod 2, and leave the ring at `(next + n) % 2` |
| Audio.OpenedRingStartsAtZero | src/audio/ps5/SDL_ps5audio.c:100-114 | after an open, the k-th play outputs offset `(k % 2) * size` |
| Audio.CloseDevice | src/audio/ps5/SDL_ps5audio.c:127-142 | close is called exactly when `aout > 0`, after which `aout` is -1. The buffer is released in every case, and an error is set exactly when a called close fails |
| Audio.CloseDeviceIdempotent | src/audio/ps5/SDL_ps5audio.c:127-142 | a second close calls nothing and changes nothing |
| Audio.FailedOutOpenLeavesNoBuffer | src/audio/ps5/SDL_ps5audio.c:93-97 | a handle below 1 fails the open, leaves no buffer, and a later close does not call `sceAudioOutClose` |
| Filesystem.CutAfterLastSlash | src/filesystem/ps5/SDL_sysfilesystem.c:66-71 | without a '/', the string is kept whole; otherwise it is cut just after its last '/' |
| Filesystem.BasePath | src/filesystem/ps5/SDL_sysfilesystem.c:46-74 | the base path always ends in '/'. A missing `argv`/`argv[0]`, or one without '/', gives "/data/". Otherwise it is the directory string cut just after its last '/' |
| Filesystem.BasePathOfAbsolute | src/filesystem/ps5/SDL_sysfilesystem.c:59-71 | an absolute `argv[0]` gives itself cut just after its last '/' |
| Filesystem.BasePathOfRelative | src/filesystem/ps5/SDL_sysfilesystem.c:55-71 | a relative `argv[0]` gives `cwd + "/" + argv[0]` cut just after its last '/', which keeps the whole cwd |
| Filesystem.Hex04RoundTrip | src/filesystem/ps5/SDL_sysfilesystem.c:103 | `%04x` is at least four lower-case hex digits, reads back as the user id, and has a leading zero only when it is exactly four digits long, so the digits are determined by the id |
| Filesystem.UserPrefix | src/filesystem/ps5/SDL_sysfilesystem.c:100-104 | a failed foreground-user query gives "/data/". Otherwise the prefix is "/user/home/" + the id in lower-case hex + "/", with at least 4 digits and a leading zero only at exactly 4; no prefix holds a NUL |
| Filesystem.Snprintf | src/filesystem/ps5/SDL_sysfilesystem.c:115-117 | the written string is a prefix of the formatted one and leaves room for the NUL; it is the whole string when that fits in `len - 1` characters, and exactly `len - 1` characters otherwise |
| Filesystem.PrefPath | src/filesystem/ps5/SDL_sysfilesystem.c:78-131 | a NULL app returns NULL and touches nothing. The user service is initialised only on the first run, and a path comes back exactly when the allocation succeeds |
| Filesystem.PrefPathNoOrgIsEmptyOrg | src/filesystem/ps5/SDL_sysfilesystem.c:90-92 | a NULL org behaves exactly like "" |
| Filesystem.PrefBufferFits | src/filesystem/ps5/SDL_sysfilesystem.c:105-118 | the formatted path plus its NUL fits the `|prefix|+|org|+|app|+3` allocation, with one byte to spare when org is empty, so `snprintf` never truncates |
| Filesystem.PrefPathShape | src/filesystem/ps5/SDL_sysfilesystem.c:114-118 | the path starts with the user prefix, ends in '/', and app sits just before the final '/' |
| Filesystem.CStrOfCut | src/filesystem/ps5/SDL_sysfilesystem.c:121-123 | writing '\0' at position i makes the C string the first i characters |
| Filesystem.SlashPrefixesMember | src/filesystem/ps5/SDL_sysfilesystem.c:120-126 | the loop's mkdir arguments are exactly the non-empty prefixes that end just before a '/' at position 1 or later |
| Filesystem.SlashPrefixesAscending | src/filesystem/ps5/SDL_sysfilesystem.c:120-126 | those arguments come in strictly increasing length |
| Filesystem.MakeDirs | src/filesystem/ps5/SDL_sysfilesystem.c:120-128 | mkdir receives every slash prefix in order and then the full path, and the buffer is restored unchanged |
| Filesystem.DataPrefixCreatedFirst | src/filesystem/ps5/SDL_sysfilesystem.c:120-128 | for the "/data/" prefix and no org, mkdir receives "/data" and then "/data/<app>" before the full path |
| Filesystem.GetPrefPath | src/filesystem/ps5/SDL_sysfilesystem.c:78-131 | the whole call: no path means no mkdir at all; a returned path is created last, after every slash prefix of it in order |
| Filesystem.DataPrefDirs | src/filesystem/ps5/SDL_sysfilesystem.c:100-128 | with the foreground-user query failing, no org and an app without '/', the directories made are exactly "/data", "/data/<app>" and "/data/<app>/" |

## Left out

- The tile constants `PS5_TILE_WIDTH`, `PS5_TILE_HEIGHT`, `PS5_TILE_SIZE` and the table `PS5_tilemap` come from `SDL_ps5tilemap.inc`, which is not part of this model. They are a parameter (`TileGeometry`). The swizzle table is required to be a bijection onto [0, size), with `size == tw*th`, `tw` dividing w and `th` dividing h.
- Video.DrawPixelsAsTiles: the `(double)w / PS5_TILE_WIDTH` quotient is exact integer division, because the tile width is required to divide w. The floating-point rounding of a non-dividing width is not modelled.
- `PS5_DrawChunk` and any parallel split of the copy are left out. The function is declared but unused, and the split would be concurrency.
- The bootstrap in `PS5_VideoInit` is left out apart from the rounding, the buffer carving and the display mode. That covers memory allocation and mapping, the video-out open, the event queue, the flip rate and buffer registration. These are sequences of system calls without logic of their own.
- Surface creation and destruction, and the driver vtables, are left out. They are bootstrap code, and that covers the video, joystick and audio drivers. So are `PS5AUDIO_Init`, `PS5AUDIO_WaitDevice` and `PS5AUDIO_ThreadInit`, which only forward to the console library.
- `SDL_PrivateJoystickAxis`/`Button`/`Hat` and `SDL_SendKeyboardKey` are modelled as emitted-event lists. SDL's own event queue is out of scope.
- `SDL_FirstAudioFormat`/`SDL_NextAudioFormat` are modelled as a given candidate list that ends at its first 0. `SDL_CalculateAudioSpec` becomes a given byte `size`.
- The SDL values of the scancodes are taken as the standard USB HID usage ids 224-231 for LCTRL…RGUI. The audio format codes are AUDIO_S16LSB 0x8010 and AUDIO_F32LSB 0x8120. The SDL headers that define them are not part of this model.
- The float members of `PS5_PadData` are not modelled: quaternion, velocity, acceleration and touch data. They are read into the stored state but never diffed.
- The unsupported joystick stubs (rumble, LED, effects, sensors), `PS5_JoystickQuit` and `PS5_JoystickGetGamepadMapping` are left out because they have no logic. The same goes for the `main` wrapper.
- Joystick.JoystickOpen: the instance-id increment is unbounded. The C `SDL_JoystickID` would overflow after 2^31 opens of one slot.
- Keyboard.KeyboardClose: the C code does not reset `g_handle` after closing, so the model keeps the handle too. Later pumps keep reading the closed handle.
- Keyboard.KeyboardInit: a failing `sceKeyboardInit` is reported under the message "scePadInit", as the code does. The model reports only which call failed, not the formatted error code.
- The padding fields `junk0`, `junk1` and `junk3` of the keyboard state are left out because they have no behaviour.
- Filesystem.BasePath: the fixed `PATH_MAX` buffer is not modelled, and neither is the unbounded `strcat` into it. Strings are unbounded, so an over-long path does not overflow. A missing `argv` and a missing `argv[0]` are one case (`argv0 == None`), since both return "/data/".
- Filesystem.PrefPath: the error `SDL_SetError` records when the first-run `sceUserServiceInitialize` fails is not modelled. The call does not change the result.
- `mkdir`'s own result is ignored by the code and not modelled. The model records only the sequence of arguments.
- Video.MaskRound: `(n + 0x4f) & ~0x4f` is modelled as written. It clears bits 0-3 and bit 6, which is not a round-up to a tile multiple: 33 to 48 all map to 48, while 49 to 64 all map to 128.
- Video.UpdateWindowFramebuffer: the copy always reads the full 1920x1152 padded frame, whatever the window's surface holds. The memory past the surface's pixels is an input (`beyond`), so the model says which values are copied but not what that memory contains or whether reading it is allowed.
- Joystick.OpenedPadsShareInstanceIds records as written that `Init` resets every instance id to -1 and `Open` increments a slot's own id. Two pads opened after one `Init` therefore both report instance id 0, and the instance lookup in `Update` and `Close` finds the first of them only.
