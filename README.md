# greenFarmacy inventory core in Dafny

This project models the inventory logic of the greenFarmacy desktop
application. The application keeps a catalog of medical products, a network
of pharmacies, each with its own stock ledger, and a journal of inventory
operations. All of it is stored in `;`-separated text files. The model
covers:

- `SafeDate`: validated calendar dates and their `YYYY-MM-DD` text
  (`safedate.dfy`).
- `SafeInput`: the field readers the parsers use (`safeinput.dfy`), built
  on the text primitives `getline`, `stoi`, `stod` and `tolower`
  (`text.dfy`).
- The product hierarchy: `MedicalProduct`, then `Medicine`, then
  `Tablet`, `Syrup` or `Ointment` (`products.dfy`). This covers the
  constructor checks, the analogue list a medicine keeps, and every class's
  `operator<<` / `operator>>` codec (`productcodecs.dfy`).
- `Storage` (a product ledger) and `Pharmacy`, with the pharmacy codec
  (`storage.dfy`, `pharmacy.dfy`).
- The inventory operations `Supply`, `Return` and `WriteOff`: construction,
  `process()` and their codecs (`operations.dfy`). Also the stock record
  (`stockrecord.dfy`).
- The generic binary search tree `binaryTree`, its nested iterator, the
  stand-alone forward and reverse iterators, and the two sorted-copy
  algorithms (`binarytree.dfy`, `treeiterator.dfy`,
  `reversetreeiterator.dfy`, `treealgorithms.dfy`).
- `PharmacyManager`: the catalog map, the pharmacy tree and the operation
  list (`pharmacymanager.dfy`).
- The line-level rules of every loader and saver of `FileManager`
  (`filemanager.dfy`).

`lexorder.dfy` holds the string order that `std::map` and the pharmacy
comparator use, and `errors.dfy` holds the exception kinds and the
`Result`/`Outcome` wrappers.

Objects the code mutates in place are classes whose methods state their new
state:

- `Product`'s analogue list;
- `Storage`;
- `Pharmacy`;
- `InventoryOperation`;
- `binaryTree` and its iterators;
- `PharmacyManager`.

Parsing, validation and file-line rules are functions. Every loop of the
source is a method with invariants, proved against a specification
function:

- the tree walks of the iterators;
- the sorted copies;
- the catalog and pharmacy scans of `PharmacyManager`;
- the analogue strip of `removeProduct`;
- the loaders and savers of `FileManager`.

A file is the sequence of its lines, or `None` when it cannot be opened.
The clock is a parameter (`Clock`: today's date and the seconds elapsed
since midnight). Doubles are reals. The `<<` of a double writes it as `%g`
does, with six significant digits, so a whole number below 10^6 in magnitude
is written exactly and a larger one loses digits; `>>` and `stod` read a
sign, digits, a fraction and an exponent that has digits. On an exponent
mark with no digits after it, `>>` fails and `stod` reads the mantissa
only. Beyond the range of a double, `>>` fails and `stod` throws
`out_of_range`.

Three places where the code and the design description of the system
differ. The model follows the code in each:

- `Return::process` only marks the operation completed. It credits no
  stock.
- `readPositiveDouble` accepts zero.
- A syrup or ointment loaded from text skips the constructor's 1000 ml /
  1000 g limit.

## Model

| member | source | states |
|---|---|---|
| SafeDates.DaysInMonth | my_inheritence/safedate.cpp:35-43 | a month has 28 to 31 days, and 29 exactly for February of a Gregorian leap year: the days `mktime` leaves where they are |
| SafeDates.Make | my_inheritence/safedate.cpp:18-44 | construction succeeds iff year ≥ 1900, month is 1..12 and the day exists in that month, and is `invalid_argument` otherwise; the getters give back the arguments |
| SafeDates.NoFebruary29In2023 | my_inheritence/safedate.cpp:35-43 | 2023-02-29, 2024-04-31 and 1900-02-29 are refused; 2024-02-29 and 2000-02-29 are accepted |
| SafeDates.FromString | my_inheritence/safedate.cpp:94-107 | parsing succeeds iff the text scans as integer '-' integer '-' integer and those numbers make a valid date; every failure is `invalid_argument` |
| SafeDates.FromStringToString | my_inheritence/safedate.cpp:87-107 | `fromString(toString(d))` gives back `d` for every valid date |
| SafeDates.IsExpiredByInstants | my_inheritence/safedate.cpp:79-85 | a date has expired exactly when the clock's instant is later than the date's midnight |
| SafeDates.ToString | my_inheritence/safedate.cpp:87-92 | the text of a valid date has its dashes where `%Y-%m-%d` puts them |
| SafeDates.ScanToString | my_inheritence/safedate.cpp:87-92 | the zero-padded `YYYY-MM-DD` text scans back into the date's own year, month and day |
| SafeInput.LineOf | Exception/safeinput.cpp:4-15 | `getline` yields a prefix of the input with no line break, non-empty when the input starts with a character other than a break |
| SafeInput.ReadNonEmptyString | Exception/safeinput.cpp:4-15 | succeeds iff the line is non-empty, and then returns it unchanged; otherwise InvalidProductData for the field |
| SafeInput.ReadPositiveDouble | Exception/safeinput.cpp:17-35 | succeeds iff `>>` reads a number that is not negative (zero included), returning that number; a dangling exponent ("1e"), an overflowing value or text that is no number is InvalidProductData |
| Text.ScanInt | Exception/safeinput.cpp:37-40 | the integer at the head of the text after white space reads at least one character and stops before a digit can follow |
| Text.ReadInt | Exception/safeinput.cpp:37-40 | `>>` into an `int` gives the scanned value and rest when it fits in 32 bits, and succeeds whenever it does |
| SafeInput.ReadPositiveInt | Exception/safeinput.cpp:37-55 | succeeds iff the text reads as a 32-bit integer greater than zero, returning it; otherwise InvalidProductData |
| SafeInput.ReadBoolean | Exception/safeinput.cpp:57-77 | true exactly for a lower-cased line of "yes", "true" or "1"; false exactly for "no", "false" or "0"; anything else is InvalidProductData |
| SafeInput.ReadBooleanYesNo | Exception/safeinput.cpp:57-77 | the "Yes"/"No" the codecs write reads back as the boolean written |
| SafeInput.ReadBooleanPadded | Exception/safeinput.cpp:57-77 | a padded " yes" is refused |
| SafeInput.ReadProductId | Exception/safeinput.cpp:79-99 | accepts iff the line has at least three characters, each a letter, a digit or '-'; an empty line is InvalidProductData, any other refusal InvalidProductId carrying the line |
| Text.Split | my_inheritence/medicalproduct.cpp:49-54 | the tokens of `getline(…, ';')` contain no separator, and empty text gives no tokens |
| Text.SplitJoin | my_inheritence/medicalproduct.cpp:33-57 | fields joined with ';' split back into the same fields when none contains ';' and the last is not empty |
| Text.ToLower | Exception/safeinput.cpp:57-77 | lower-casing keeps the length, maps each character on its own, and leaves no capital letter |
| Text.RemoveSpaces | my_inheritence/filemanager.cpp:649-656 | the result has no space and has every other character of the input |
| Text.Stoi | my_inheritence/stockrecord.cpp:28-29 | `stoi` succeeds iff a 32-bit integer heads the text; `invalid_argument` when no number is there, `out_of_range` when it does not fit |
| Text.ReadIntOfString | my_inheritence/stockrecord.cpp:4-29 | an integer written by `<<` and followed by a non-digit reads back as itself |
| Text.BeforeUnitOf | my_inheritence/tablet.cpp:93-117 | cutting the unit suffix (" mg", " ml", " g") off a written amount gives back the number's text |
| Text.ScanRealOfIntegral | my_inheritence/medicalproduct.cpp:33-63 | a whole number strictly between -10^6 and 10^6, written by `<<`, reads back as itself |
| Text.RealToStringWhole | my_inheritence/medicalproduct.cpp:33-35 | below 10^6 in magnitude, `<<` writes a whole number as its plain decimal digits |
| Text.NonNegRealToStringIntegral | my_inheritence/medicalproduct.cpp:33-35 | a non-negative whole number below 10^6 is written in fixed notation as its digits |
| Text.ScanRealOfIntString | Exception/safeinput.cpp:17-35 | `>>` into a double reads the decimal digits of any whole number, with its sign, back as that number |
| Text.LargeWholeLosesDigits | my_inheritence/medicalproduct.cpp:33-35 | `<<` keeps six significant digits: 1234567 is written "1.23457e+06" and reads back as 1234570 |
| Text.ScanRealExponent | Exception/safeinput.cpp:17-35 | both readers take "1e3" as 1000; on "1e", "1e+" and "2.5e-" `>>` fails while `stod` gives the mantissa |
| Text.ScanReal | Exception/safeinput.cpp:17-20 | the number `strtod` reads after white space consumes at least one character |
| Text.ExtractReal | Exception/safeinput.cpp:17-26 | `>>` into a double succeeds iff a number heads the text, no exponent mark dangles after its mantissa and the value is within the range of a double; it then reads what `strtod` reads |
| Text.OverflowRead | Exception/safeinput.cpp:17-26 | "1e" followed by any exponent of 342 or more: `>>` fails and `stod` throws `out_of_range` |
| Text.PowerOverflows | my_inheritence/tablet.cpp:108-112 | ten to the power 342 or more lies beyond the range of a double |
| Text.DoubleOverflowIsMidpoint | my_inheritence/tablet.cpp:108-112 | the overflow bound is 2^1024 - 2^970, half way between the largest double and 2^1024 |
| Text.RealToString | my_inheritence/medicalproduct.cpp:33-35 | the text of a double is never empty and starts with '-' exactly when the number is negative |
| Text.Stod | my_inheritence/tablet.cpp:108-112 | `stod` succeeds exactly when a number heads the text and lies within the range of a double, and then gives the value `strtod` reads; no number is `invalid_argument`, an overflowing one `out_of_range` |
| LexOrder.LessIrreflexive | my_inheritence/pharmacymanager.cpp:8-11 | the string order never puts a string before itself |
| LexOrder.LessTransitive | my_inheritence/pharmacymanager.cpp:8-11 | the string order is transitive |
| LexOrder.LessTotal | my_inheritence/pharmacymanager.cpp:8-11 | any two different strings are ordered one way or the other |
| LexOrder.LessAsymmetric | my_inheritence/pharmacymanager.cpp:8-11 | no two strings are each before the other |
| LexOrder.Ordered | my_inheritence/storage.cpp:65-74 | the keys of a map in iteration order: strictly ascending, exactly the keys, each once |
| LexOrder.SortedUnique | my_inheritence/storage.cpp:65-74 | two strictly ascending sequences with the same members are equal, so the iteration order is unique |
| LexOrder.OrderedKeys | my_inheritence/storage.cpp:65-74 | the loop that takes the smallest remaining key yields the keys in map iteration order |
| LexOrder.Smallest | my_inheritence/storage.cpp:65-74 | returns a key of a non-empty set that comes before every other key |
| LexOrder.MinimumExists | my_inheritence/storage.cpp:65-74 | every non-empty set of keys has a smallest one, so an ordered walk over a map always has a next key |
| Products.DosageForm | my_inheritence/tablet.cpp:48-51 | each form's dosage-form name is a non-empty text the codec can carry (no ';', no line break) |
| Products.AdministrationMethod | my_inheritence/ointment.cpp:38-47 | the method is "External" exactly for an ointment; tablets and syrups are taken orally |
| Products.CheckBase | my_inheritence/medicalproduct.cpp:12-21 | construction passes iff id, name and country are non-empty and the price is not negative; an empty id is reported first, then an empty name |
| Products.CheckMedicine | my_inheritence/medicine.cpp:8-32 | a medicine passes iff the base checks pass, substance and instructions are non-empty, the validators accept and the price is positive; an empty substance or instructions is `invalid_argument` |
| Products.CheckForm | my_inheritence/tablet.cpp:7-33 | a form passes iff its text field validates and its numbers are in range: tablet units and dosage positive; syrup volume in (0, 1000]; ointment weight in (0, 1000] |
| Products.CheckProductAccepts | my_inheritence/medicine.cpp:8-32 | constructing the most derived class succeeds iff every layer's checks pass |
| Products.MedicineNeedsPositivePrice | my_inheritence/medicine.cpp:8-32 | a price of 0, accepted by the base class, is refused by Medicine |
| Products.Product.constructor | my_inheritence/medicine.cpp:8-32 | a new product holds the given data and no analogues |
| Products.Product.AnalogueIds | my_inheritence/medicine.cpp:223-229 | the ids of the analogue list in list order, one per entry |
| Products.Product.AddAnalogue | my_inheritence/medicine.cpp:54-73 | a null analogue, the medicine itself or one already listed is `invalid_argument` and changes nothing; otherwise the analogue is appended; the list stays free of duplicates and of the own id |
| Products.Product.RemoveAnalogue | my_inheritence/medicine.cpp:76-92 | an empty id is `invalid_argument`, an unlisted one `runtime_error`, both without change; otherwise exactly the entries with that id go |
| Products.Product.ClearAnalogues | my_inheritence/medicine.cpp:232-235 | the list is emptied |
| Products.Product.AddAnalogueById | my_inheritence/medicine.cpp:203-220 | the own id is `invalid_argument`, an id missing from the product list `runtime_error`, an id already listed `invalid_argument` with the list unchanged, otherwise the product with the id is appended |
| Products.Product.FindAnaloguesBySubstance | my_inheritence/medicine.cpp:101-115 | an empty substance is `invalid_argument`; otherwise the listed analogues with that substance, in list order |
| Products.IsAnalogueOfIrreflexive | my_inheritence/medicine.cpp:118-123 | no medicine is an analogue of itself |
| Products.IsAnalogueOfSymmetric | my_inheritence/medicine.cpp:118-123 | being an analogue is symmetric |
| Products.Without | my_inheritence/medicine.cpp:76-92 | the list without the entries of one id keeps every other entry and adds none |
| Products.WithoutKeepsDistinct | my_inheritence/medicine.cpp:59-72 | removing entries keeps the ids of an analogue list pairwise distinct |
| Products.WithSubstance | my_inheritence/medicine.cpp:101-115 | the entries with the substance are exactly those of the list that have it |
| ProductCodecs.Rethrow | my_inheritence/medicalproduct.cpp:86-97 | pharmacy exceptions pass through unchanged; any other error comes out as a pharmacy exception |
| ProductCodecs.ValidateBase | my_inheritence/medicalproduct.cpp:68-84 | the read checks pass iff the date is not expired, the id is a valid product id, and name and country are non-empty; expiry is reported before the id |
| ProductCodecs.ParseBaseInto | my_inheritence/medicalproduct.cpp:42-100 | a line without exactly five fields is InvalidProductData with the target untouched; a successful read passes the checks; every failure is a pharmacy exception |
| ProductCodecs.ParseBaseFields | my_inheritence/medicalproduct.cpp:59-100 | five fields set id and name from the first two; a pass means the product passes the checks; every failure is a pharmacy exception |
| ProductCodecs.ParseBaseDate | my_inheritence/medicalproduct.cpp:66-100 | id, name and price are kept; a pass sets the country and passes the checks; a bad date is rethrown as a pharmacy exception |
| ProductCodecs.ParseBase | my_inheritence/medicalproduct.cpp:42-100 | what parses is a valid unexpired product; every failure is a pharmacy exception |
| ProductCodecs.ParseBaseIntoAnyTarget | my_inheritence/medicalproduct.cpp:59-66 | a successful read overwrites every field, so its result does not depend on the object read into |
| ProductCodecs.BaseRoundTrip | my_inheritence/medicalproduct.cpp:29-100 | the five fields `<<` writes read back into the same product, whatever the target held |
| ProductCodecs.ParseBaseRoundTrip | my_inheritence/medicalproduct.cpp:29-100 | a written product parses back as itself |
| ProductCodecs.Encode | my_inheritence/medicine.cpp:140-151 | a product written with plain text is one line that splits into its five base fields, or ten for a medicine |
| ProductCodecs.ParseMedicine | my_inheritence/medicine.cpp:153-200 | fewer than ten fields is InvalidProductData; what parses has a valid base and non-empty substance and instructions |
| ProductCodecs.MedicineRoundTrip | my_inheritence/medicine.cpp:140-200 | the ten fields of a medicine read back as the same medicine |
| ProductCodecs.TakeFields | my_inheritence/tablet.cpp:75-91 | reading n `;`-terminated fields succeeds iff the text has at least n, and yields the first n |
| ProductCodecs.ParseTablet | my_inheritence/tablet.cpp:75-133 | input ending before 13 fields is "tablet data"; what parses is a valid medicine tablet with positive units and dosage and a coating |
| ProductCodecs.ParseSyrup | my_inheritence/syrup.cpp:68-126 | input ending before 13 fields is "syrup data"; what parses is a valid medicine syrup with positive volume and a flavor |
| ProductCodecs.ParseOintment | my_inheritence/ointment.cpp:72-126 | input ending before 12 fields is "ointment data"; what parses is a valid medicine ointment with positive weight and a base type |
| ProductCodecs.TabletRoundTrip | my_inheritence/tablet.cpp:65-133 | a written tablet reads back as itself |
| ProductCodecs.SyrupRoundTrip | my_inheritence/syrup.cpp:58-126 | a written syrup reads back as itself |
| ProductCodecs.OintmentRoundTrip | my_inheritence/ointment.cpp:62-126 | a written ointment reads back as itself |
| ProductCodecs.FormRoundTrip | my_inheritence/tablet.cpp:65-133 | whatever its form, a written medicine's text after the marker reads back as the same medicine |
| ProductCodecs.SyrupParseSkipsVolumeLimit | my_inheritence/syrup.cpp:68-126 | a syrup over 1000 ml loads from text although its constructor refuses it |
| Storages.Added | my_inheritence/storage.cpp:8-21 | an arrival raises the product's quantity by the amount and no other quantity |
| Storages.Removed | my_inheritence/storage.cpp:23-43 | a removal lowers the product's quantity by the amount and no other; the entry disappears exactly when nothing is left |
| Storages.InsufficientErrorAsWritten | my_inheritence/storage.cpp:36-37 | the shortage error as `removeProduct` builds it names the product |
| Storages.InsufficientErrorSwapped | my_inheritence/storage.cpp:36-37 | as built, the error reports the on-hand amount as requested and the request as available |
| Storages.InsufficientError | Exception/InventoryExceptions/InsufficientQuantityException.h:14-17 | the shortage error with the arguments in constructor order names the product |
| Storages.InsufficientErrorReports | Exception/InventoryExceptions/InsufficientQuantityException.h:14-17 | so built, it reports the request as requested and the stock as available, the first larger than the second |
| Storages.Storage.constructor | my_inheritence/storage.h:9-18 | a new storage has no entries and satisfies the storage invariant |
| Storages.Storage.AddProduct | my_inheritence/storage.cpp:8-21 | null is InventoryException and a non-positive quantity NegativeQuantity, both without change; otherwise the quantity is added to the entry, or a new entry is made; quantities stay positive |
| Storages.Storage.RemoveProduct | my_inheritence/storage.cpp:23-43 | an empty id or unknown product is InventoryException, a non-positive quantity NegativeQuantity, a shortage InsufficientQuantity, all without change; otherwise the quantity is taken off and an emptied entry erased |
| Storages.Storage.GetQuantity | my_inheritence/storage.cpp:45-55 | an empty id is InventoryException; otherwise the stocked quantity, zero for an unstocked product, positive exactly for a stocked one |
| Storages.Storage.Contains | my_inheritence/storage.cpp:57-63 | an empty id is InventoryException; otherwise whether the product has an entry |
| Storages.Storage.GetAllProductIds | my_inheritence/storage.cpp:65-74 | the stocked ids, each once, in ascending order |
| Storages.ContainsIffPositive | my_inheritence/storage.cpp:45-63 | a product is contained exactly when its quantity is positive |
| Storages.Apply | my_inheritence/storage.cpp:8-43 | an arrival succeeds iff its quantity is positive; a removal iff the id is stocked and the quantity is positive and no more than the stock |
| Storages.ApplyKeepsPositive | my_inheritence/storage.cpp:23-43 | every successful arrival or removal keeps all stocked quantities positive |
| Storages.ApplyAllBalance | my_inheritence/storage.cpp:8-43 | after any run of successful operations from an empty ledger, each quantity is what arrived minus what left, and all are positive |
| Pharmacies.FallbackName | my_inheritence/pharmacy.cpp:146-147 | the name given to a pharmacy read without one ends with its id |
| Pharmacies.Stocked | my_inheritence/pharmacy.cpp:62-86 | the products of a list that are in stock, in list order, and no others |
| Pharmacies.Rows | my_inheritence/pharmacy.cpp:88-96 | one (product, quantity) row per key, in the order of the keys |
| Pharmacies.CollectRows | my_inheritence/pharmacy.cpp:88-96 | the listing loop yields exactly those rows |
| Pharmacies.FirstMatch | my_inheritence/pharmacy.cpp:172-182 | the search stops at the first row whose product has the name or id, and at the end when none has |
| Pharmacies.Pharmacy.constructor | my_inheritence/pharmacy.cpp:10-14 | a new pharmacy holds the given details and an empty ledger of its own |
| Pharmacies.Pharmacy.Default | my_inheritence/pharmacy.cpp:16-19 | the default pharmacy holds the default details and an empty ledger |
| Pharmacies.Pharmacy.AddToStorage | my_inheritence/pharmacy.cpp:27-39 | null, a non-positive quantity, an empty id or an already stocked product is refused without change; otherwise the product is stocked with the quantity |
| Pharmacies.Pharmacy.RemoveFromStorage | my_inheritence/pharmacy.cpp:41-53 | an empty id is refused here and the ledger's own refusals pass through; otherwise the quantity leaves the ledger |
| Pharmacies.Pharmacy.CheckStock | my_inheritence/pharmacy.cpp:55-60 | an empty id is `invalid_argument`; otherwise the quantity on hand, positive exactly for a stocked product |
| Pharmacies.Pharmacy.FindAvailableAnalogues | my_inheritence/pharmacy.cpp:62-86 | an empty id is `invalid_argument`; an unstocked product or one that is not a medicine has none; otherwise its listed analogues that are in stock here, in list order |
| Pharmacies.Pharmacy.GetAllProducts | my_inheritence/pharmacy.cpp:88-96 | every stocked product with its quantity, in ascending id order |
| Pharmacies.Pharmacy.FindProduct | my_inheritence/pharmacy.cpp:172-182 | null exactly when no stocked product has the name or id; otherwise the first such product in id order |
| Pharmacies.ParseInto | my_inheritence/pharmacy.cpp:124-170 | a line without exactly five fields is InvalidProductData with the target untouched; what parses has non-empty id, address and phone, a fallback name and a non-negative rent |
| Pharmacies.EncodeAsWritten | my_inheritence/pharmacy.cpp:112-122 | what `<<` writes is one line that splits into the five details plus the product count |
| Pharmacies.Encode | my_inheritence/pharmacy.cpp:112-122 | the corrected writer: one line that splits into exactly the five details `>>` reads |
| Pharmacies.WrittenPharmacyNeverReads | my_inheritence/pharmacy.cpp:112-170 | `>>` refuses every line `<<` writes |
| Pharmacies.RoundTrip | my_inheritence/pharmacy.cpp:124-170 | the five details written with ';' read back as the same pharmacy |
| Pharmacies.EmptyNameFallsBack | my_inheritence/pharmacy.cpp:146-147 | a pharmacy read with an empty name gets the fallback name |
| Operations.EmptyDetails | my_inheritence/return.cpp:17-21 | a default operation keeps its kind, with an empty detail field |
| Operations.DefaultRecord | inventoryoperation.cpp:27-34 | a default operation has the kind given and status "pending" |
| Operations.OperationType | my_inheritence/return.cpp:29-32 | the type name is "Return", "Supply" or "WriteOff" exactly for that kind |
| Operations.CheckNew | inventoryoperation.cpp:8-25 | construction passes iff id, product, status and the kind's detail are present and the quantity is positive; a non-positive quantity is NegativeQuantity, any other refusal InventoryException |
| Operations.ProcessOutcome | my_inheritence/supply.cpp:40-52 | processing passes iff the operation is neither completed nor cancelled and, for a supply or write-off, the quantity is positive |
| Operations.ProcessAtMostOnce | my_inheritence/writeoff.cpp:35-47 | once processed, an operation cannot be processed again |
| Operations.ReturnIgnoresQuantity | my_inheritence/return.cpp:34-43 | processing a return does not look at its quantity |
| Operations.InventoryOperation.Default | inventoryoperation.cpp:27-34 | a default-constructed operation holds the default record of its kind |
| Operations.InventoryOperation.Create | inventoryoperation.cpp:8-25 | construction fails exactly when the checks refuse, with their error; otherwise a new operation |
| Operations.InventoryOperation.SetStatus | inventoryoperation.h:37 | only the status changes |
| Operations.InventoryOperation.Process | my_inheritence/supply.cpp:40-52 | processing succeeds as the rule says and then marks the operation completed; a refusal changes nothing; no other field changes |
| Operations.InventoryOperation.Read | my_inheritence/supply.cpp:77-119 | the record after `>>` is what the parser gives for the old record and the line |
| Operations.ReadCommon | inventoryoperation.cpp:70-109 | the five shared fields: the id is always stored, a successful read has the date parsed from its field, and any failure is InventoryException |
| Operations.ParseBaseInto | inventoryoperation.cpp:70-109 | an empty line or fewer than five fields sets the fail state and leaves the target; a good read has a product id; a throw is InventoryException |
| Operations.ParseInto | my_inheritence/supply.cpp:77-119 | an empty line or too few fields sets the fail state; the kind never changes; a good read has its detail and product id |
| Operations.BaseRoundTrip | inventoryoperation.cpp:59-109 | the five written base fields read back as the same operation |
| Operations.RoundTrip | my_inheritence/writeoff.cpp:59-111 | a written supply, return or write-off reads back as itself into any operation of the same kind |
| Operations.Encode | my_inheritence/supply.cpp:65-75 | an operation with plain text fields is written as one line that splits into its fields |
| Operations.Prefix | my_inheritence/filemanager.cpp:499-524 | the kind prefix of a journal line ends with ';' (and is "WRITEOFF;" for a write-off) |
| StockRecords.ParseInto | my_inheritence/stockrecord.cpp:14-39 | each of the four fields present overwrites its part, the date only when it scans and is valid; empty input changes nothing; only `stoi` can throw |
| StockRecords.ScanfDateOfToString | my_inheritence/stockrecord.cpp:34-35 | `sscanf("%d-%d-%d")` reads a written date back into its three numbers |
| StockRecords.RoundTrip | my_inheritence/stockrecord.cpp:4-39 | a written record reads back as itself into any record |
| StockRecords.Encode | my_inheritence/stockrecord.cpp:4-12 | a record with plain text fields is written as one line with no line break |
| BinaryTrees.NextAlongWalk | my_binary_tree/binarytree.h:55-76 | from the i-th node of an in-order walk, one step reaches the (i+1)-th, or the end after the last |
| BinaryTrees.NextDescends | my_binary_tree/binarytree.h:59-64 | with a child on the step's side, the step goes to the extreme node of that subtree |
| BinaryTrees.NextClimbs | my_binary_tree/binarytree.h:66-74 | without one, the step climbs while coming from that side and stops at the parent reached, or at the end |
| BinaryTrees.WalkReversed | my_binary_tree/tree_iterator.h:79-101 | the descending walk is the ascending walk reversed |
| BinaryTrees.Descend | my_binary_tree/binarytree.h:289-294 | following children to one side reaches that side's extreme node |
| BinaryTrees.Step | my_binary_tree/binarytree.h:55-76 | the loop of `++` computes the successor (and of `--` the predecessor) |
| BinaryTrees.WalkData | my_binary_tree/binarytree.h:55-76 | the i-th node of a walk holds the i-th element in ascending order, or in descending order for a backward walk |
| BinaryTrees.PreOrderPermutes | my_binary_tree/binarytree.h:350-360 | the search visits every element exactly once |
| BinaryTrees.FindIfFinds | my_binary_tree/binarytree.h:350-360 | `find_if` finds a node iff some element satisfies the predicate, and the node found satisfies it |
| BinaryTrees.FindIfFirst | my_binary_tree/binarytree.h:350-360 | the node found is the first match in pre-order |
| BinaryTrees.EquivalentIffSameKey | my_binary_tree/binarytree.h:203-222 | neither element orders before the other exactly when their keys are equal |
| BinaryTrees.InsertExisting | my_binary_tree/binarytree.h:203-222 | inserting a value whose key is present leaves the tree as it was |
| BinaryTrees.InsertAdds | my_binary_tree/binarytree.h:203-222 | inserting a new key adds exactly that value |
| BinaryTrees.InsertMembers | my_binary_tree/binarytree.h:203-222 | insertion brings in no element but the one inserted |
| BinaryTrees.InsertFresh | my_binary_tree/binarytree.h:203-222 | inserting a new key keeps the in-order sequence strictly ascending |
| BinaryTrees.Unlink | my_binary_tree/binarytree.h:225-286 | replacing a node by its unlinked form keeps the order and removes exactly its element |
| BinaryTrees.WalkStart | my_binary_tree/binarytree.h:154-163 | a walk starts at the extreme node opposite its direction; an empty tree has none |
| BinaryTrees.PositionData | my_binary_tree/binarytree.h:154-169 | the i-th position of a walk exists iff i is below the size, and holds the i-th element in the walk's order |
| BinaryTrees.PositionsDistinct | my_binary_tree/binarytree.h:85-88 | distinct steps of a walk stand on distinct nodes, so comparing with the end iterator stops the loop at the right step |
| BinaryTrees.DataAt | my_binary_tree/binarytree.h:41-46 | dereferencing the end iterator is `runtime_error`; otherwise it gives the node's element |
| BinaryTrees.BinaryTree.constructor | my_binary_tree/binarytree.h:136-145 | a new tree is empty and keeps its comparator |
| BinaryTrees.BinaryTree.Begin | my_binary_tree/binarytree.h:154-163 | `begin` stands on the first node of the ascending walk |
| BinaryTrees.BinaryTree.End | my_binary_tree/binarytree.h:166-169 | `end` stands on no node |
| BinaryTrees.BinaryTree.Push | my_binary_tree/binarytree.h:190-222 | pushing a present key changes nothing; otherwise it adds the value and keeps the tree ordered |
| BinaryTrees.BinaryTree.Remove | my_binary_tree/binarytree.h:225-294 | the result is true iff the value was present; then exactly that value leaves and the order is kept; otherwise nothing changes |
| BinaryTrees.BinaryTree.Clear | my_binary_tree/binarytree.h:297-311 | the tree is empty |
| BinaryTrees.BinaryTree.Empty | my_binary_tree/binarytree.h:314-317 | true iff the tree holds no element |
| BinaryTrees.BinaryTree.Size | my_binary_tree/binarytree.h:320-330 | the number of elements |
| BinaryTrees.BinaryTree.Find | my_binary_tree/binarytree.h:334-360 | the end iterator iff no element satisfies the predicate; otherwise an iterator on a stored element that does |
| BinaryTrees.Unlinked | my_binary_tree/binarytree.h:225-286 | the subtree replacing a removed node holds its two subtrees' elements in order: a leaf goes, a single child moves up, two children take the successor's data |
| BinaryTrees.SizeOf | my_binary_tree/binarytree.h:326-330 | the recursive count is the number of elements |
| BinaryTrees.Iterator.Deref | my_binary_tree/binarytree.h:41-46 | the element at the node, or `runtime_error` at the end |
| BinaryTrees.Iterator.Increment | my_binary_tree/binarytree.h:55-76 | moves to the in-order successor; the end iterator stays at the end |
| BinaryTrees.Iterator.PostIncrement | my_binary_tree/binarytree.h:78-83 | returns a copy from before the step, then steps |
| TreeIterators.NextInverse | my_binary_tree/tree_iterator.h:48-101 | `--` undoes `++`, and `++` undoes `--` |
| TreeIterators.TreeIterator.Deref | my_binary_tree/tree_iterator.h:34-39 | the element at the node, or `runtime_error` at the end |
| TreeIterators.TreeIterator.Increment | my_binary_tree/tree_iterator.h:48-70 | `runtime_error` at the end; otherwise moves to the successor |
| TreeIterators.TreeIterator.PostIncrement | my_binary_tree/tree_iterator.h:72-77 | a copy from before, then the step of `++` |
| TreeIterators.TreeIterator.Decrement | my_binary_tree/tree_iterator.h:79-101 | `runtime_error` at the end; otherwise moves to the predecessor |
| TreeIterators.TreeIterator.PostDecrement | my_binary_tree/tree_iterator.h:103-108 | a copy from before, then the step of `--` |
| TreeIterators.TreeIterator.Equals | my_binary_tree/tree_iterator.h:110-113 | equal exactly when both stand on the same node |
| ReverseTreeIterators.ReverseStepLands | my_binary_tree/reverse_tree_iterator.h:84-143 | from the end, `++` goes to the smallest element and `--` to the largest; otherwise a step moves one node along its walk |
| ReverseTreeIterators.DescendingVisit | my_binary_tree/reverse_tree_iterator.h:84-118 | the reverse walk starts at the largest element and its i-th node holds the i-th element in descending order |
| ReverseTreeIterators.ReverseTreeIterator.Deref | my_binary_tree/reverse_tree_iterator.h:67-72 | the element at the node, or `runtime_error` at the end |
| ReverseTreeIterators.ReverseTreeIterator.Increment | my_binary_tree/reverse_tree_iterator.h:84-118 | moves to the predecessor; from the end, to the smallest element |
| ReverseTreeIterators.ReverseTreeIterator.PostIncrement | my_binary_tree/reverse_tree_iterator.h:121-126 | a copy from before, then the step of `++` |
| ReverseTreeIterators.ReverseTreeIterator.Decrement | my_binary_tree/reverse_tree_iterator.h:129-163 | moves to the successor; from the end, to the largest element |
| ReverseTreeIterators.ReverseTreeIterator.PostDecrement | my_binary_tree/reverse_tree_iterator.h:166-171 | a copy from before, then the step of `--` |
| ReverseTreeIterators.ReverseTreeIterator.Equals | my_binary_tree/reverse_tree_iterator.h:174-177 | equal exactly when both stand on the same node |
| ReverseTreeIterators.Move | my_binary_tree/reverse_tree_iterator.h:84-163 | the walking loop computes the reverse step |
| TreeAlgorithms.GetSortedAscending | my_binary_tree/tree_algorithms.h:47-53 | copying from `begin` to `end` yields the elements between them in ascending order |
| TreeAlgorithms.GetSortedDescending | my_binary_tree/tree_algorithms.h:58-64 | copying from `rbegin` to `rend` yields them in descending order |
| TreeAlgorithms.SortedAscending | my_binary_tree/tree_algorithms.h:47-53 | over a whole tree, the copy holds every element, keys strictly ascending |
| TreeAlgorithms.SortedDescending | my_binary_tree/tree_algorithms.h:58-64 | over a whole tree, the copy is the elements reversed, keys strictly descending |
| TreeAlgorithms.ReversedDescends | my_binary_tree/tree_algorithms.h:58-64 | an ascending sequence reversed is descending |
| PharmacyManagers.CatalogInOrder | my_inheritence/pharmacymanager.cpp:209-216 | the catalog in iteration order lists each product once, in ascending id order |
| PharmacyManagers.SearchResult | my_inheritence/pharmacymanager.cpp:129-147 | the search result holds exactly the catalog products matching the term, in id order |
| PharmacyManagers.AnaloguesResult | my_inheritence/pharmacymanager.cpp:187-207 | the analogue result holds exactly the other medicines with the substance, in id order |
| PharmacyManagers.StrippedDropsId | my_inheritence/pharmacymanager.cpp:33-42 | a stripped analogue list no longer lists the id and keeps every other entry |
| PharmacyManagers.MedicineUnlisted | my_inheritence/pharmacymanager.cpp:33-42 | a medicine never lists itself, so not every medicine lists a medicine being removed |
| PharmacyManagers.Hits | my_inheritence/pharmacymanager.cpp:129-147 | the matches are no more than the products searched |
| PharmacyManagers.HitsExact | my_inheritence/pharmacymanager.cpp:129-147 | the matches are exactly the products that match the term |
| PharmacyManagers.HitsAscending | my_inheritence/pharmacymanager.cpp:129-147 | the matches keep the catalog's id order |
| PharmacyManagers.AnaloguesIn | my_inheritence/pharmacymanager.cpp:187-207 | the analogues found are no more than the products searched |
| PharmacyManagers.AnaloguesExact | my_inheritence/pharmacymanager.cpp:187-207 | they are exactly the medicines with another id and the same substance |
| PharmacyManagers.AnaloguesAscending | my_inheritence/pharmacymanager.cpp:187-207 | they keep the catalog's id order |
| PharmacyManagers.OfKind | my_inheritence/pharmacymanager.cpp:99-127 | the operations of one kind, in journal order, and no others |
| PharmacyManagers.Availability | my_inheritence/pharmacymanager.cpp:149-167 | every quantity in the availability map is positive |
| PharmacyManagers.AvailabilityHas | my_inheritence/pharmacymanager.cpp:149-167 | a pharmacy stocking the product appears with its quantity |
| PharmacyManagers.AvailabilityOnly | my_inheritence/pharmacymanager.cpp:149-167 | only pharmacies stocking the product appear |
| PharmacyManagers.AvailabilityExact | my_inheritence/pharmacymanager.cpp:149-167 | the map holds exactly the stocking pharmacies, each with its quantity |
| PharmacyManagers.Carriers | my_inheritence/pharmacymanager.cpp:169-185 | no more than one row per pharmacy |
| PharmacyManagers.CarriersHas | my_inheritence/pharmacymanager.cpp:169-185 | a pharmacy with a stocked product of that name or id is listed with its id and name |
| PharmacyManagers.CarriersOnly | my_inheritence/pharmacymanager.cpp:169-185 | every row is such a pharmacy |
| PharmacyManagers.CarriersExact | my_inheritence/pharmacymanager.cpp:169-185 | the rows are exactly those pharmacies |
| PharmacyManagers.PharmacyManager.constructor | my_inheritence/pharmacymanager.cpp:8-11 | a new manager has no products, pharmacies or operations |
| PharmacyManagers.PharmacyManager.PharmacyIdsDistinct | my_inheritence/pharmacymanager.cpp:59-69 | no two pharmacies in the tree share an id |
| PharmacyManagers.PharmacyManager.AddProduct | my_inheritence/pharmacymanager.cpp:13-22 | null is InvalidProductData and a known id DuplicateProduct, both without change; otherwise the product is filed under its id |
| PharmacyManagers.PharmacyManager.GetProduct | my_inheritence/pharmacymanager.cpp:47-57 | an empty id is InvalidProductData and an unknown one ProductNotFound; otherwise the product filed under it |
| PharmacyManagers.PharmacyManager.GetAllProducts | my_inheritence/pharmacymanager.cpp:209-216 | every catalog product once, in ascending id order |
| PharmacyManagers.PharmacyManager.SearchProducts | my_inheritence/pharmacymanager.cpp:129-147 | an empty term is InvalidProductData; otherwise exactly the products whose name, id or country contains the term, or whose active substance does for a medicine, compared case-sensitively, each once and in id order |
| PharmacyManagers.PharmacyManager.GetAnalogues | my_inheritence/pharmacymanager.cpp:187-207 | an empty or unknown id or a non-medicine is refused with its error; otherwise the other medicines with the same substance, in id order |
| PharmacyManagers.PharmacyManager.UpdateProduct | my_inheritence/pharmacymanager.cpp:218-230 | true iff the id is in the catalog, and then only that entry is replaced |
| PharmacyManagers.PharmacyManager.StripAnalogues | my_inheritence/pharmacymanager.cpp:33-42 | each medicine in id order is asked to drop the id; in the code's strict form the walk stops at the first medicine not listing it |
| PharmacyManagers.PharmacyManager.RemoveProductAsWritten | my_inheritence/pharmacymanager.cpp:24-45 | empty or unknown ids are refused; otherwise removal succeeds iff every medicine lists the id, and it fails at the first that does not, after the ones before it lost the entry |
| PharmacyManagers.PharmacyManager.RemoveProduct | my_inheritence/pharmacymanager.cpp:24-45 | empty or unknown ids are refused; otherwise the product leaves the catalog and no medicine left lists it |
| PharmacyManagers.PharmacyManager.FindPharmacy | my_inheritence/pharmacymanager.cpp:254-264 | null exactly when no pharmacy has the id; otherwise the pharmacy with it |
| PharmacyManagers.PharmacyManager.AddPharmacy | my_inheritence/pharmacymanager.cpp:59-69 | null is InvalidProductData and a known id DuplicateProduct, both without change; otherwise the pharmacy joins the tree |
| PharmacyManagers.PharmacyManager.RemovePharmacy | my_inheritence/pharmacymanager.cpp:71-81 | an empty id is InvalidProductData and an unknown one ProductNotFound; otherwise exactly the pharmacy with the id leaves |
| PharmacyManagers.PharmacyManager.GetPharmacy | my_inheritence/pharmacymanager.cpp:83-89 | an empty id is InvalidProductData; otherwise the pharmacy with the id, or null |
| PharmacyManagers.PharmacyManager.GetAllPharmacies | my_inheritence/pharmacymanager.cpp:244-252 | the pharmacies in strictly ascending id order |
| PharmacyManagers.PharmacyManager.GetProductAvailability | my_inheritence/pharmacymanager.cpp:149-167 | an empty id is InvalidProductData; otherwise exactly the pharmacies stocking the product, each with its quantity |
| PharmacyManagers.AvailabilityAsWritten | my_inheritence/pharmacymanager.cpp:149-167 | an empty id is InvalidProductData; on a live tree the result is the availability, and the copy's destructor leaves the nodes deleted; on deleted nodes the walk is undefined |
| PharmacyManagers.AvailabilityTwiceAsWritten | my_inheritence/pharmacymanager.cpp:149-167 | the first query answers correctly but frees the shared nodes, so a second query walks freed memory |
| PharmacyManagers.PharmacyManager.FindProductInPharmacies | my_inheritence/pharmacymanager.cpp:169-185 | an empty query is InvalidProductData; otherwise exactly the pharmacies with a stocked product of that name or id, in id order |
| PharmacyManagers.PharmacyManager.AddOperation | my_inheritence/pharmacymanager.cpp:91-97 | null is InvalidProductData; otherwise the operation is appended to the journal |
| PharmacyManagers.PharmacyManager.OperationsOfKind | my_inheritence/pharmacymanager.cpp:99-127 | the journal's supplies, returns or write-offs, in journal order |
| PharmacyManagers.PharmacyManager.ClearAll | my_inheritence/pharmacymanager.cpp:237-242 | catalog, pharmacy tree and journal are all empty |
| PharmacyManagers.PharmacyManager.GetAllOperations | my_inheritence/pharmacymanager.cpp:232-235 | the whole journal, in order |
| PharmacyManagers.AvailabilityStep | my_inheritence/pharmacymanager.cpp:149-167 | one pass of the availability loop extends the map by the pharmacy under the iterator and steps |
| PharmacyManagers.CarriersStep | my_inheritence/pharmacymanager.cpp:169-185 | one pass of the search loop extends the rows by the pharmacy under the iterator and steps |
| PharmacyManagers.FindsProduct | my_inheritence/pharmacymanager.cpp:169-185 | a pharmacy is a hit exactly when its `findProduct` finds the query |
| PharmacyManagers.CollectHits | my_inheritence/pharmacymanager.cpp:129-147 | the search loop over the catalog yields the matches in catalog order |
| PharmacyManagers.CollectAnalogues | my_inheritence/pharmacymanager.cpp:187-207 | the analogue loop over the catalog yields the analogues in catalog order |
| PharmacyManagers.CollectAll | my_inheritence/pharmacymanager.cpp:209-216 | the listing loop yields the catalog in order |
| PharmacyManagers.StripOne | my_inheritence/pharmacymanager.cpp:35-41 | a medicine drops the id from its list, and raises exactly when the code's `removeAnalogue` would for an unlisted id |
| PharmacyManagers.RemovedById | my_inheritence/pharmacymanager.cpp:71-81 | removing one pharmacy from a set with distinct ids leaves exactly the others |
| FileManagers.StaysStopped | my_inheritence/filemanager.cpp:86-96 | once an exception ends a load, later lines change nothing |
| FileManagers.KeptAreTaken | my_inheritence/filemanager.cpp:86-96 | a load keeps only what its line readers accepted, and ends early only on an exception from a line |
| FileManagers.ScanLines | my_inheritence/filemanager.cpp:47-97 | the line loop of a loader computes the scan over its lines |
| FileManagers.LineForm | my_inheritence/filemanager.cpp:50-83 | a line is a tablet, syrup or ointment exactly when it starts with that marker |
| FileManagers.MedicineLine | my_inheritence/filemanager.cpp:50-96 | a line without a marker is skipped; a medicine taken was parsed under the form its marker names |
| FileManagers.LoadedMedicinesParsed | my_inheritence/filemanager.cpp:32-121 | every loaded medicine passed its form's reader |
| FileManagers.LoadMedicines | my_inheritence/filemanager.cpp:32-121 | a missing file is false and keeps the old list; otherwise the medicines read in file order, with analogues linked from the analogue file when the load succeeded |
| FileManagers.MarkerRecognised | my_inheritence/filemanager.cpp:50-83 | the marker `<<` writes is the one the loader recognises |
| FileManagers.MedicineLineRoundTrip | my_inheritence/filemanager.cpp:123-188 | a saved medicine line loads as the same medicine |
| FileManagers.SaveLoadMedicines | my_inheritence/filemanager.cpp:123-188 | loading what was saved gives back every medicine, in order, without exception |
| FileManagers.SaveMedicines | my_inheritence/filemanager.cpp:123-188 | one line per medicine, in order, each tagged with the marker of its form |
| FileManagers.SaveAnalogues | my_inheritence/filemanager.cpp:587-618 | every listed analogue has its `id;analogueId` line, and every line is one of those |
| FileManagers.SplitLink | my_inheritence/filemanager.cpp:556-566 | a link line splits at its first ';' into the medicine id and the analogue id |
| FileManagers.LinkLine | my_inheritence/filemanager.cpp:533-585 | a link line only adds to analogue lists, and its errors are `invalid_argument` |
| FileManagers.ReadLinks | my_inheritence/filemanager.cpp:533-585 | reading the analogue file keeps the set of medicines, and only `invalid_argument` ends it |
| FileManagers.LinkLineValid | my_inheritence/filemanager.cpp:533-585 | a link line keeps every list free of duplicates, of the own id and of unknown ids |
| FileManagers.ReadLinksValid | my_inheritence/filemanager.cpp:533-585 | so does the whole file |
| FileManagers.LoadAnalogues | my_inheritence/filemanager.cpp:533-585 | a missing file changes nothing; otherwise the links are those the file's lines give, and they stay valid |
| FileManagers.LinkLines | my_inheritence/filemanager.cpp:587-618 | one `id;analogueId` line per analogue, in list order |
| FileManagers.SaveLoadAnalogues | my_inheritence/filemanager.cpp:587-618 | loading the saved links gives every medicine its analogue list back, without exception |
| FileManagers.OperationKind | my_inheritence/filemanager.cpp:421-450 | a line's prefix picks the kind of operation; a line without a known prefix has none |
| FileManagers.OperationLine | my_inheritence/filemanager.cpp:404-472 | no line aborts the load; an operation taken has its prefix, its detail and a product id |
| FileManagers.PrefixRecognised | my_inheritence/filemanager.cpp:421-450 | the prefix the saver writes is the one the loader recognises |
| FileManagers.LoadedOperationsRead | my_inheritence/filemanager.cpp:404-472 | every line is read, and what is kept is what the readers accepted |
| FileManagers.LoadInventoryOperations | my_inheritence/filemanager.cpp:404-472 | a missing file is false and keeps the old journal; otherwise the operations read, in file order |
| FileManagers.OperationLineRoundTrip | my_inheritence/filemanager.cpp:474-531 | a saved operation line loads as the same operation |
| FileManagers.SaveLoadOperations | my_inheritence/filemanager.cpp:474-531 | loading what was saved gives back every operation, in order |
| FileManagers.SaveOperations | my_inheritence/filemanager.cpp:499-524 | one line per operation, in order; each that round-trips loads back as that operation |
| FileManagers.Merge | my_inheritence/filemanager.cpp:481-497 | the merged journal starts with the existing one and holds nothing but existing and incoming operations |
| FileManagers.MergeIds | my_inheritence/filemanager.cpp:481-497 | an id is in the merge exactly when it is in either journal |
| FileManagers.MergeDistinct | my_inheritence/filemanager.cpp:481-497 | merging never adds a second operation with an id already present |
| FileManagers.MergeKnown | my_inheritence/filemanager.cpp:481-497 | merging operations whose ids are all known changes nothing |
| FileManagers.MergeIdempotent | my_inheritence/filemanager.cpp:481-497 | merging the same operations twice is merging them once |
| FileManagers.MergeOperations | my_inheritence/filemanager.cpp:481-497 | the merging loop computes the merge |
| FileManagers.SaveInventoryOperations | my_inheritence/filemanager.cpp:474-531 | writes the merge of what the file held with the new operations |
| FileManagers.SaveInventoryTwice | my_inheritence/filemanager.cpp:474-531 | saving the same operations again writes the same file |
| FileManagers.PharmacyLine | my_inheritence/filemanager.cpp:256-278 | a line is taken iff it is not blank, has five fields and a readable rent; no line aborts |
| FileManagers.LoadedPharmacyInfos | my_inheritence/filemanager.cpp:240-306 | there is always at least one pharmacy; a missing file gives the fixed four |
| FileManagers.LoadPharmacies | my_inheritence/filemanager.cpp:240-306 | the list becomes new pharmacies with the loaded details, in order, each with an empty ledger |
| FileManagers.NewPharmacies | my_inheritence/filemanager.cpp:280-300 | one new pharmacy with an empty ledger per set of details, in order |
| FileManagers.PharmacyLineRoundTrip | my_inheritence/filemanager.cpp:256-278 | five written details load as the same pharmacy |
| FileManagers.WrittenPharmacyLineSkipped | my_inheritence/filemanager.cpp:308-328 | a line as `savePharmacies` writes it is skipped |
| FileManagers.SavedPharmaciesNeverReload | my_inheritence/filemanager.cpp:256-328 | whatever was saved, the text as written, read as file lines, loads as the fixed four |
| FileManagers.WrittenPharmaciesSplit | my_inheritence/pharmacy.cpp:112-122 | the pharmacies written one after the other split at ';' into five fields per pharmacy and one more |
| FileManagers.FileLines | Files/file_txt.cpp:80-93 | the lines of a file's text hold no line break |
| FileManagers.FileLinesOfTerminated | Files/file_txt.cpp:80-93 | lines each followed by a break read back as themselves |
| FileManagers.SaveLoadPharmacies | my_inheritence/filemanager.cpp:240-328 | with five-field lines, loading gives back the saved pharmacies in order |
| FileManagers.SavePharmacies | my_inheritence/filemanager.cpp:308-328 | the corrected saver: one line per pharmacy, each loading back as that pharmacy |
| FileManagers.SavePharmaciesAsWritten | my_inheritence/filemanager.cpp:308-328 | every pharmacy written with `<<` and no line break: for details without ';' or line breaks, the file is one line of 5n+1 `;` fields |
| FileManagers.AppendedPharmaciesTwice | my_inheritence/filemanager.cpp:308-313 | the file is opened to append: saving twice and loading lists every pharmacy twice |
| FileManagers.MedicineMap | my_inheritence/filemanager.cpp:336-341 | every medicine's id maps to a medicine of the list with that id |
| FileManagers.MedicineMapLast | my_inheritence/filemanager.cpp:336-341 | when ids repeat, the last medicine with the id wins |
| FileManagers.PharmacyMap | my_inheritence/filemanager.cpp:343-345 | every pharmacy's id maps to a pharmacy of the list with that id |
| FileManagers.BuildMedicineMap | my_inheritence/filemanager.cpp:336-341 | the loop builds the medicine map |
| FileManagers.BuildPharmacyMap | my_inheritence/filemanager.cpp:343-345 | the loop builds the pharmacy map |
| FileManagers.Stocking | my_inheritence/pharmacy.cpp:27-39 | stocking succeeds iff the quantity is positive, the id is non-empty and not stocked yet, and then adds only that entry |
| FileManagers.StockLine | my_inheritence/filemanager.cpp:347-359 | a stock line never changes which pharmacies have ledgers, and after an exception nothing changes |
| FileManagers.ReadStock | my_inheritence/filemanager.cpp:347-359 | the scan of the stock file keeps the set of ledgers |
| FileManagers.StockLineOnlyAdds | my_inheritence/filemanager.cpp:347-359 | a stock line only adds entries, for known medicines under their ids |
| FileManagers.ReadStockOnlyAdds | my_inheritence/filemanager.cpp:347-359 | so does the whole file |
| FileManagers.StockOne | my_inheritence/filemanager.cpp:355-358 | `addToStorage` on the pharmacy changes its ledger as `Stocking` says |
| FileManagers.StockStep | my_inheritence/filemanager.cpp:347-359 | one pass of the loop reads one more line as the scan does |
| FileManagers.StockLoop | my_inheritence/filemanager.cpp:347-359 | the loop leaves the ledgers as the scan says, true iff no line raised, and other pharmacies untouched |
| FileManagers.LoadStockData | my_inheritence/filemanager.cpp:330-366 | a missing file is false and changes nothing; otherwise the ledgers end as the scan of every line says and the result is true iff no line raised |
| FileManagers.EntryLines | my_inheritence/filemanager.cpp:376-393 | at most one record line per product of a pharmacy |
| FileManagers.WriteEntries | my_inheritence/filemanager.cpp:376-393 | the loop writes those lines |
| FileManagers.SavePharmacyStock | my_inheritence/filemanager.cpp:376-393 | one pharmacy's lines are those of its listing in id order |
| FileManagers.SaveStockData | my_inheritence/filemanager.cpp:368-401 | the saved file is every pharmacy's lines, pharmacy by pharmacy |
| FileManagers.SaveLoadStock | my_inheritence/filemanager.cpp:330-401 | reading the saved lines into empty ledgers restores every ledger, leaves the others and raises nothing |
| FileManagers.StockLoadTrueUnterminated | my_inheritence/filemanager.cpp:347-359 | the load as written is true only for a file that does not end with a line break |
| FileManagers.TerminatedStockLoadFails | my_inheritence/filemanager.cpp:347-359 | on a file whose every line ends with a break, the load as written stocks every line but returns false |
| FileManagers.SavedStockNeverReloads | my_inheritence/filemanager.cpp:368-401 | what `saveStockData` writes as written is never restored by the load as written |
| FileManagers.StockLoadAsWritten | my_inheritence/filemanager.cpp:347-359 | the load as written keeps the set of pharmacies and every product already stocked |
| FileManagers.SaveStockAsWritten | my_inheritence/filemanager.cpp:368-401 | what `saveStockData` writes as written holds no line break |
| FileManagers.AppendedStockStops | my_inheritence/filemanager.cpp:368-372 | the file is opened to append: after two saves, the second copy of a record meets its product already stocked and the load stops |
| FileManagers.AvailabilityFields | my_inheritence/filemanager.cpp:649-666 | a line yields fields only when it has a colon; the product field is the text before it, without spaces |
| FileManagers.StockLineFields | my_inheritence/stockrecord.cpp:4-29 | the corrected scan takes the first three `;` fields, without spaces, exactly from a non-blank line with at least three fields |
| FileManagers.AvailabilityLine | my_inheritence/filemanager.cpp:649-685 | a line counts only for the product asked for, a digit-only pharmacy id other than the main "001" and a positive quantity |
| FileManagers.FirstWithId | my_inheritence/filemanager.cpp:688-712 | the first loaded pharmacy with the id, or none |
| FileManagers.DisplayName | my_inheritence/filemanager.cpp:688-712 | a pharmacy is named by the name, address and phone of the first loaded pharmacy with its id, on three lines, and as "Аптека №" and the id when none has it |
| FileManagers.FirstIsFirst | my_inheritence/filemanager.cpp:688-712 | the first index holding the id is the pharmacy the lookup finds |
| FileManagers.Availability | my_inheritence/filemanager.cpp:620-732 | at most one row per line of the stock file, each with a positive quantity |
| FileManagers.AvailabilityRow | my_inheritence/filemanager.cpp:645-715 | a line gives at most one row, with a positive quantity |
| FileManagers.NameOf | my_inheritence/filemanager.cpp:688-712 | the inner loop names the pharmacy as the first loaded one with the id, or by a fallback |
| FileManagers.GetAvailabilityInOtherPharmacies | my_inheritence/filemanager.cpp:620-732 | a missing stock file gives nothing; otherwise the rows of the scan of `product:pharmacy;quantity` lines, in file order |
| FileManagers.GetAvailabilityFromStockLines | my_inheritence/filemanager.cpp:620-732 | the corrected scan: the same, reading the stock file's own `product;pharmacy;quantity;date` lines |
| FileManagers.ScanStockFile | my_inheritence/filemanager.cpp:620-732 | the scan's body in either line format |
| FileManagers.StockFileAvailability | my_inheritence/filemanager.cpp:368-401 | on the stock file `saveStockData` writes, the corrected scan reports exactly each pharmacy other than the main one that stocks the product, in ledger order, with its quantity |
| FileManagers.AvailabilityAppend | my_inheritence/filemanager.cpp:640-730 | the scan of two runs of lines is the scan of the first followed by that of the second |
| FileManagers.LedgerAvailability | my_inheritence/filemanager.cpp:376-393 | one pharmacy's saved lines report it once with its quantity when it is not the main one and stocks the product, and otherwise not at all |
| FileManagers.EntriesAvailability | my_inheritence/filemanager.cpp:376-393 | over a pharmacy's entries in id order, its lines report the product's entry and no other |
| FileManagers.StockLineRow | my_inheritence/stockrecord.cpp:4-29 | a saved record line is read by the corrected scan as its product, pharmacy and quantity |
| FileManagers.ScanAvailability | my_inheritence/filemanager.cpp:640-730 | the scanning loop computes the rows |
| FileManagers.ScanLine | my_inheritence/filemanager.cpp:645-715 | one pass computes one line's row |
| FileManagers.AvailabilityLineOf | my_inheritence/filemanager.cpp:649-685 | a `product:pharmacy;quantity` line counts when the product is the one asked for |
| FileManagers.AvailabilityWithoutColons | my_inheritence/filemanager.cpp:649-656 | a file with no colon gives no rows |
| FileManagers.SavedStockHasNoAvailability | my_inheritence/filemanager.cpp:620-732 | the stock file `saveStockData` writes gives no rows |

## Left out

- File handles: `File_text`, opening, seeking and closing are not modelled. A file is the sequence of its lines, or `None` when it cannot be opened. `Files/file_txt.cpp` is not part of this model beyond that.
- The `FileManager` singleton and its file names are not modelled; each loader takes its files as parameters.
- The clock: `time`/`localtime` become a `Clock` or a `today` parameter.
- Null entries in the lists the managers pass around are not modelled, except where an operation tests for null explicitly.
- Floating point: prices, rents, volumes and weights are reals. `<<` of a double keeps six significant digits (`Text.LargeWholeLosesDigits`: 1234567 is written "1.23457e+06" and reads back as 1234570). The round-trip lemmas cover whole values below 10^6 in magnitude, which `<<` writes exactly; fractions and larger values, whose text is rounded, are not covered. `>>` reads sign, digits, fraction and an exponent, and fails on an exponent mark with no digits and beyond the range of a double, as libstdc++'s `num_get` does; it reads no hexadecimal float, `inf` or `nan` there either.
- Text.Stod: underflow (`out_of_range` for a value too small for a double), hexadecimal floats, `inf` and `nan`, which `strtod` accepts, are not modelled; such text reads as its decimal head.
- Text.ScanRealOfIntegral: holds only for whole numbers strictly between -10^6 and 10^6, because `<<` rounds larger ones to six significant digits.
- ProductCodecs.BaseRoundTrip: covers prices that are whole numbers below 10^6; other prices are rounded by `<<` to six significant digits.
- ProductCodecs.ParseBaseRoundTrip: the same bound on the price as BaseRoundTrip.
- ProductCodecs.MedicineRoundTrip: the same bound on the price as BaseRoundTrip.
- ProductCodecs.TabletRoundTrip: the same bound on the price and the dosage.
- ProductCodecs.SyrupRoundTrip: the same bound on the price and the volume.
- ProductCodecs.OintmentRoundTrip: the same bound on the price and the weight.
- ProductCodecs.FormRoundTrip: the same bound on every double of the medicine.
- Pharmacies.RoundTrip: covers rents that are whole numbers below 10^6.
- FileManagers.MedicineLineRoundTrip: the same bound on every double of the medicine.
- FileManagers.SaveLoadMedicines: the same bound on every double of every medicine.
- FileManagers.PharmacyLine: the rent is read as `>>` reads a double, refusing a dangling exponent and an overflowing value; denormal rounding is not modelled.
- FileManagers.PharmacyLineRoundTrip: covers rents that are whole numbers below 10^6.
- FileManagers.SaveLoadPharmacies: starts from an empty file and covers rents that are whole numbers below 10^6; `savePharmacies` appends, so a file that already held lines keeps them (`FileManagers.AppendedPharmaciesTwice`).
- FileManagers.SaveLoadStock: starts from an empty file; `saveStockData` appends, so a second save makes the load stop (`FileManagers.AppendedStockStops`).
- Integer widths: quantities are 32-bit where the code parses them (`stoi`, `readPositiveInt`), but ledger sums are unbounded; overflow of a ledger quantity past 2^31 is not modelled.
- `validateProductId` and `validateTextField` have no definition in the code, so they are parameters (`Validators`) of the constructor checks.
- `print`-style members (`printTree`, `print_sorted_*`, `displayInfo`) and the Qt user interface are not modelled.
- `qWarning` logging in the loaders is not modelled.
- The iterators' copy constructors and assignment operators are plain value copies and are not modelled separately.
- `findProductInPharmacies` walks the pharmacy tree itself. `getProductAvailability` copies it into `tempTree` first. There is no copy constructor, so the copy shares the root, and its destructor frees the shared nodes when the call returns. `PharmacyManagers.AvailabilityAsWritten` models this with a tree that is live or deleted, without pointers (see Findings). `PharmacyManagers.PharmacyManager.GetProductAvailability` models the walk without the copy.
- The pharmacy tree holds pharmacies by value. Node identity, parent pointers and in-place relinking are modelled by paths from the root.
- FileManagers.LoadStockData: models the load corrected to stock every line. The code's end-of-file loop is `StockLoadAsWritten`. Its own contract only says that it keeps the pharmacies and what they already stocked. The lemmas in Findings state the rest of its behaviour.
- FileManagers.SavePharmacies and FileManagers.SaveStockData: model the files as one record per line. As written, records follow each other with no line break (see Findings).
- Storages.Storage.RemoveProduct: a shortage raises InsufficientQuantity with the request as requested and the stock as available, the corrected order of storage.cpp:36-37 (see Findings); the code swaps the two numbers.
- Pharmacies.Pharmacy.RemoveFromStorage: passes on the ledger's corrected InsufficientQuantity, so it states the corrected numbers too.
- Return processing: `Return::process` credits no stock to any pharmacy, and the model does the same.

## Findings

| source | as written | input that shows it | evidently intended | confidence | as-written member | corrected member |
|---|---|---|---|---|---|---|
| my_inheritence/storage.cpp:36-37 | the shortage error is built as (id, current, quantity), but its constructor takes (id, requested, available) | a stock of 2 and a request for 5: the error says 2 requested, 5 available | report 5 requested, 2 available | not executed | Storages.InsufficientErrorSwapped | Storages.InsufficientErrorReports |
| my_inheritence/pharmacymanager.cpp:24-45 | `removeProduct` calls `removeAnalogue` on every medicine; that throws for an id the list lacks, and a medicine never lists itself | removing any medicine: the call throws at the first medicine not listing it, and the product stays | drop the id from the lists that have it, then erase the product | not executed | PharmacyManagers.MedicineUnlisted | PharmacyManagers.PharmacyManager.RemoveProduct |
| my_inheritence/pharmacy.cpp:112-122 | `<<` writes six fields (the product count last); `>>` and `loadPharmacies` accept exactly five | any saved pharmacy, e.g. `001;A;B;C;1000;0`: refused by `>>`, skipped by the loader | write the five fields that are read back | not executed | FileManagers.SavedPharmaciesNeverReload | FileManagers.SaveLoadPharmacies |
| my_inheritence/filemanager.cpp:368-401 | `saveStockData` writes each record with `<<`, which adds no line break | two stocked products: one line holding both records, which reloads as nothing | one record per line | not executed | FileManagers.SavedStockNeverReloads | FileManagers.SaveLoadStock |
| my_inheritence/filemanager.cpp:347-359 | the loop stocks a record only if the read did not reach end of file | a file ending with a line break: every line stocked, then the read at end of file throws and the load is false; a file without one: the last line is never stocked | stock every line and return true | not executed | FileManagers.TerminatedStockLoadFails | FileManagers.LoadStockData |
| my_inheritence/filemanager.cpp:649-656 | the availability scan looks for `product:pharmacy;quantity`, but stock lines are `product;pharmacy;quantity;date` | any saved stock file: no line has a colon, so no pharmacy is ever reported | read the stock file's own format | not executed | FileManagers.SavedStockHasNoAvailability | FileManagers.GetAvailabilityFromStockLines |
| my_inheritence/filemanager.cpp:308-313 | `savePharmacies` (and `saveStockData`, filemanager.cpp:368-372) open their files with `Open_file_out`, which is `ios::out \| ios::app` (Files/file_txt.cpp:34-36), so each save appends to what the file held | save the same stock twice: each record is in the file twice, the second copy raises DuplicateProduct and the load stops; pharmacies saved twice load twice | open the file for writing and truncate it, as the other savers do | not executed | FileManagers.AppendedStockStops | FileManagers.SaveLoadStock |
| my_inheritence/pharmacymanager.cpp:149-167 | `getProductAvailability` copies the tree into `tempTree`; with no copy constructor (binarytree.h:101-103) the copy shares the root, and its destructor (binarytree.h:148-151, 297-310) frees the nodes the manager still holds | two availability queries in a row: the first answers, the second walks freed nodes | walk the manager's own tree, or copy it deeply | not executed | PharmacyManagers.AvailabilityTwiceAsWritten | PharmacyManagers.PharmacyManager.GetProductAvailability |
