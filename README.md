# ProyectoEstructuras in Dafny

A Dafny model of the core of ProyectoEstructuras, a small vector-space search
engine written in C#. The engine turns text files into `Documento`s. Each text
is lower-cased, stripped of accents, punctuation and stopwords, and then
tokenised. A basic indexing strategy builds an inverted index: a circular
doubly-linked list of `TermInfo`, each holding a list of `Posting`s, one per
document. A finalisation pass gives every term its idf and every posting its
tf-idf weight. The cosine search strategy then turns the query and every
document into TF-IDF vectors over the index's terms. It keeps the documents
whose cosine similarity with the query is positive, and bubble-sorts them by
descending similarity.

The repository also holds a second, array-based variant of the same idea. It
uses a `Vector` class over an array, a dictionary-backed `InvertedIndex`, a
`CalculadoraTfIdf`, a `SimilitudCoseno` helper and a `Vocabulario`. Its APIs
are not compatible with the list-based variant, so it is modelled file by file
against the API each file actually calls.

Modules, one per source file:

| module | file | what it is |
|---|---|---|
| `Listas` | `lista_doble_circular.dfy` | `ListaDobleCircular<T>` and its `Iterator<T>`. The nodes live in an arena of sequences (`datos`, `siguientes`, `anteriores`), with `cabeza == -1` for a null head. Ghost `Orden`/`Contents` give the ring from the head. `Valid()` is the circularity invariant. |
| `Postings` | `posting.dfy` | `Posting`, a class whose counters are updated in place. |
| `TermInfos` | `term_info.dfy` | `TermInfo`, its find-or-create of postings, and the hand-written logarithm behind its idf. |
| `IndexBasica` | `estrategia_index.dfy` | The indexing strategy, over the two lists it is given. |
| `BusquedaCoseno` | `estrategia_busqueda.dfy` | The cosine search strategy. |
| `Documentos` | `documento.dfy` | `Documento`. |
| `Normalizacion` | `normalizer.dfy` | The normaliser. |
| `Tokenizacion` | `tokenizer.dfy` | The tokeniser. |
| `Texto` | `texto.dfy` | .NET's `Split(' ')` and its inverse. |
| `Calculos` | `vector.dfy` | The array-based `Vector`. |
| `Similitudes` | `similitud_coseno.dfy` | `SimilitudCoseno`. |
| `TfIdf` | `calculadora_tfidf.dfy` | `CalculadoraTfIdf`. |
| `Indices` | `inverted_index.dfy` | `InvertedIndex`. |
| `Vocabularios` | `vocabulario.dfy` | `Vocabulario`. |
| `Resultados` | `resultado_busqueda.dfy` | `ResultadoBusqueda`. |
| `Lector` | `lector_directorios.dfy` | The configuration and path checks of `LectorDirectorios`. |
| `Comun` | `comun.dfy` | `Option`, occurrence counts, first positions. |

Each source loop is a Dafny `method` with its loop. Each method is proved
against a function that states what the loop computes. The lemmas beside the
function state the properties the source relies on. A loop over a list's
cursor usually has its body split out as a step method (`...Siguiente`,
`...Paso`), which keeps the proofs small.

`Math.Sqrt` is a parameter `raiz`. A valid root (`RaizValida`) is non-negative,
0 at 0 and positive on positive arguments. `Math.Log10(n / df)` in
`CalculadoraTfIdf` is a parameter `logCociente`. The stopword list is a
parameter. The clock reading used for ids is a parameter `marcaTiempo`.

## Model

| member | source | states |
|---|---|---|
| Listas.ListaDobleCircular.constructor | EstructurasDatosProyecto/Models/ListaDobleCircular.cs:3-5 | A new list has a null head, no elements, and satisfies the ring invariant. |
| Listas.ListaDobleCircular.EstaVacia | EstructurasDatosProyecto/Models/ListaDobleCircular.cs:7-10 | True exactly when the list holds no element. |
| Listas.ListaDobleCircular.Insertar | EstructurasDatosProyecto/Models/ListaDobleCircular.cs:12-29 | Keeps the ring invariant and appends the element at the end. On an empty list the node links to itself both ways; otherwise the head is unchanged. |
| Listas.AnilloConNodo | EstructurasDatosProyecto/Models/ListaDobleCircular.cs:23-27 | Splicing a new node between the last node and the head leaves a ring one node longer. |
| Listas.EnlazadaConNodo | EstructurasDatosProyecto/Models/ListaDobleCircular.cs:23-27 | The same splice, stated on the list's node-by-node invariant, with the new datum last. |
| Listas.ListaDobleCircular.Buscar | EstructurasDatosProyecto/Models/ListaDobleCircular.cs:31-42 | Returns the element equal to the argument when the list holds one, and `None` (`default(T)`) otherwise, including for an empty list. |
| Listas.ListaDobleCircular.Modificar | EstructurasDatosProyecto/Models/ListaDobleCircular.cs:44-58 | True exactly when the old value is present. Then only its first occurrence is replaced, in place. Otherwise nothing changes. The ring and the head never move. |
| Listas.ListaDobleCircular.Eliminar | EstructurasDatosProyecto/Models/ListaDobleCircular.cs:60-84 | True exactly when the element is present. Then its first occurrence is removed and the others keep their order. Removing the only node empties the list. Removing the head moves the head to its successor. Otherwise the head stays. A miss changes nothing. |
| Listas.ListaDobleCircular.QuitarDelAnillo | EstructurasDatosProyecto/Models/ListaDobleCircular.cs:68-78 | Unlinking a node of a ring of two or more removes exactly that position. The head moves only when the head was removed. |
| Listas.AnilloSinNodo | EstructurasDatosProyecto/Models/ListaDobleCircular.cs:74-75 | Pointing a node's predecessor and successor at each other leaves a ring of the remaining nodes. |
| Listas.EnlazadaSinNodo | EstructurasDatosProyecto/Models/ListaDobleCircular.cs:74-77 | The same unlinking, on the node-by-node invariant and the contents. It also gives the new first node when the head is removed. |
| Listas.ListaDobleCircular.Count | EstructurasDatosProyecto/Models/ListaDobleCircular.cs:86-97 | The do-while walk stops after exactly one cycle and returns the number of elements. |
| Listas.ListaDobleCircular.AnilloCierra | EstructurasDatosProyecto/Models/ListaDobleCircular.cs:86-97 | From the head, following `siguiente` returns to the head after exactly `Count` steps and not before. `anterior` undoes `siguiente`. |
| Listas.ListaDobleCircular.AvanzarDesdeCabeza | EstructurasDatosProyecto/Models/ListaDobleCircular.cs:91-95 | After k steps from the head the walk is at the k-th node of the ring, and back at the head after a full cycle. |
| Listas.ListaDobleCircular.ObtenerIterator | EstructurasDatosProyecto/Models/ListaDobleCircular.cs:99-102 | A fresh cursor over this list's elements, before its first step. |
| Listas.Iterator.constructor | EstructurasDatosProyecto/Models/Iterator.cs:9-14 | The cursor starts on the head, with `primerRecorrido` set and nothing yielded. |
| Listas.Iterator.TieneSiguiente | EstructurasDatosProyecto/Models/Iterator.cs:16-21 | True exactly while fewer elements have been yielded than the list holds. So it is false on an empty list, true first on a non-empty one, and false after one full cycle. |
| Listas.Iterator.Siguiente | EstructurasDatosProyecto/Models/Iterator.cs:23-31 | Yields the next element in list order, moves to the node's successor and clears `primerRecorrido`. After a full cycle it returns `None` and changes nothing. |
| Listas.Iterator.Reiniciar | EstructurasDatosProyecto/Models/Iterator.cs:33-37 | Restores the constructor's state: back on the head with `primerRecorrido` set, so the same elements are yielded again. |
| Listas.SiguienteEnArreglo | EstructurasDatosProyecto/Strategies/EstrategiaBusquedaCoseno.cs:239-243 | One step of copying a list into an array: the array's prefix grows by the next element. |
| Listas.PosicionEnLista | EstructurasDatosProyecto/Indexing/CalculadoraTfIdf.cs:103-118 | A traversal that records the counter at the first equal element returns the element's first position, or -1 when absent. |
| Listas.PosicionSiguiente | EstructurasDatosProyecto/Indexing/CalculadoraTfIdf.cs:108-115 | The traversal callback keeps the first position found in the prefix walked so far. |
| Listas.PosicionPaso | EstructurasDatosProyecto/Indexing/CalculadoraTfIdf.cs:108-115 | A longer prefix keeps an earlier first position, and sets it only on the first match. |
| Listas.ElementoEnLista | EstructurasDatosProyecto/Indexing/CalculadoraTfIdf.cs:121-136 | Returns the element at the given position, or `None` (`null`) when the position is out of range. |
| Comun.PosicionElementoEn | EstructurasDatosProyecto/Indexing/CalculadoraTfIdf.cs:103-136 | Round trip. The element at a present term's first position is that term. Without repeated elements, every position is the first position of its element. |
| Comun.Ocurrencias | EstructurasDatosProyecto/Strategies/EstrategiaBusquedaCoseno.cs:181-198 | The number of occurrences is at most the length, and 0 exactly when the element is absent. |
| Comun.OcurrenciasConcat | EstructurasDatosProyecto/Indexing/CalculadoraTfIdf.cs:80-86 | Counting over a concatenation adds the counts of the two parts. |
| Comun.Posicion | EstructurasDatosProyecto/Indexing/CalculadoraTfIdf.cs:103-118 | -1 exactly when the element is absent; otherwise a position holding it with no earlier occurrence. |
| Comun.ElementoEn | EstructurasDatosProyecto/Indexing/CalculadoraTfIdf.cs:121-136 | Defined (not `null`) exactly for positions inside the sequence. |
| Postings.Posting.Vacio | EstructurasDatosProyecto/Models/Posting.cs:15-20 | The default posting has no document, frequency 0 and tf-idf 0. |
| Postings.Posting.constructor | EstructurasDatosProyecto/Models/Posting.cs:22-27 | Stores the document id and frequency, with tf-idf 0. |
| Postings.Posting.Completo | EstructurasDatosProyecto/Models/Posting.cs:31-36 | Stores all three fields. |
| Postings.Posting.IncrementarFrecuencia | EstructurasDatosProyecto/Models/Posting.cs:42-45 | The frequency goes up by exactly one. The id and the tf-idf are unchanged. |
| Postings.Posting.EstablecerTfIdf | EstructurasDatosProyecto/Models/Posting.cs:46-49 | Sets the tf-idf and nothing else. |
| Postings.Posting.CalcularTfIdf | EstructurasDatosProyecto/Models/TermInfo.cs:138-149 | Sets the tf-idf to frequency times idf, and nothing else. |
| Postings.EsIgualSoloPorId | EstructurasDatosProyecto/Models/Posting.cs:51-55 | Two postings are equal exactly when their document ids are, whatever their counts. No posting equals null. |
| Postings.EqualsComoEsIgual | EstructurasDatosProyecto/Models/Posting.cs:59-64 | `Equals` agrees with `EsIgual` on postings, and is reflexive, symmetric and transitive. |
| Postings.Posting.EsIgual | EstructurasDatosProyecto/Models/Posting.cs:51-55 | Never equal to null, and every posting equals itself. `EsIgualSoloPorId` gives the characterisation by document id and the symmetry. |
| Postings.Posting.Equals | EstructurasDatosProyecto/Models/Posting.cs:59-64 | True only for postings. On a posting it agrees with `EsIgual`, and every posting equals itself. |
| Postings.Posting.Clonar | EstructurasDatosProyecto/Models/Posting.cs:81-84 | A new object with the same three fields. |
| TermInfos.TermInfo.Vacio | EstructurasDatosProyecto/Models/TermInfo.cs:13-19 | An empty term: no postings, document frequency 0, idf 0. |
| TermInfos.TermInfo.constructor | EstructurasDatosProyecto/Models/TermInfo.cs:22-28 | A term with the given string, no postings, document frequency 0 and idf 0. |
| TermInfos.TermInfo.AgregarPosting | EstructurasDatosProyecto/Models/TermInfo.cs:32-45 | Find-or-create by document id, stated through `AgregarPostingTerm`. The invariant is kept: distinct documents, and a document frequency equal to the number of postings. |
| TermInfos.TermInfo.IncrementarEn | EstructurasDatosProyecto/Models/TermInfo.cs:36-39 | The found branch: the existing posting gets one more occurrence, and nothing else changes. |
| TermInfos.TermInfo.InsertarNuevo | EstructurasDatosProyecto/Models/TermInfo.cs:40-44 | The new-document branch: the posting is appended and the document frequency goes up by one. |
| TermInfos.AgregarPostingVista | EstructurasDatosProyecto/Models/TermInfo.cs:32-45 | For a document already present, only that posting's frequency grows by one, whatever the new posting's frequency. Otherwise the new posting is appended at the end. |
| TermInfos.AgregarPostingTerm | EstructurasDatosProyecto/Models/TermInfo.cs:32-45 | The document frequency grows exactly when the posting list grows. The term and the idf are untouched. |
| TermInfos.AgregarPostingIds | EstructurasDatosProyecto/Models/TermInfo.cs:32-45 | Adding a posting keeps one posting per document. The documents afterwards are those before plus the new one. |
| TermInfos.AgregarExistente | EstructurasDatosProyecto/Models/TermInfo.cs:36-39 | With a posting for the document at position k, adding raises position k's frequency by one. |
| TermInfos.AgregarNuevo | EstructurasDatosProyecto/Models/TermInfo.cs:40-44 | Without a posting for the document, adding appends the new posting. |
| TermInfos.AgregarPostingFrecuencia | EstructurasDatosProyecto/Models/TermInfo.cs:32-45 | The total frequency grows by one for a known document, and by the new posting's frequency otherwise. |
| TermInfos.TermInfo.PostingsDistintos | EstructurasDatosProyecto/Models/TermInfo.cs:32-45 | Postings for distinct documents are distinct objects, which lets one be updated in place without touching the others. |
| TermInfos.TermInfo.BuscarPostingPorDocumento | EstructurasDatosProyecto/Models/TermInfo.cs:49-66 | Returns the term's posting for that document, or null exactly when the term has none. |
| TermInfos.IndiceDe | EstructurasDatosProyecto/Models/TermInfo.cs:49-66 | The first posting for a present document id. |
| TermInfos.TermInfo.CalcularIdf | EstructurasDatosProyecto/Models/TermInfo.cs:71-81 | Sets only the idf, to `IdfDe(df, N)`. That is 0 when df or N is 0, and the approximate log10(N / df) otherwise. |
| TermInfos.IdfTermUniversal | EstructurasDatosProyecto/Models/TermInfo.cs:71-81 | A term in every document has idf 0. |
| TermInfos.IdfPositivo | EstructurasDatosProyecto/Models/TermInfo.cs:71-81 | A term in at least half but not all of the documents has a positive idf. |
| TermInfos.IdfTresMedios | EstructurasDatosProyecto/Models/TermInfo.cs:70-81 | idf for N = 3, df = 2 lies within 0.01 of log10(3/2). |
| TermInfos.IdfTercioNegativo | EstructurasDatosProyecto/Models/TermInfo.cs:70-81 | idf for N = 3, df = 1 is negative. The comment at line 70 promises 0.477, but the strict `x > 3.0` at line 106 sends x = 3 into the series. |
| TermInfos.CalcularLogaritmoBase10 | EstructurasDatosProyecto/Models/TermInfo.cs:86-95 | Equals `Log10Aprox`: 0 for x ≤ 0 or x = 1, and ln(x) / 2.302585092994046 otherwise. |
| TermInfos.CalcularLogaritmoNatural | EstructurasDatosProyecto/Models/TermInfo.cs:100-135 | Equals `LnAprox`. That is 0 for x ≤ 0 and at 1, 1.0986 for x > 3, -1.2040 for x < 0.3, and otherwise the first ten terms of the series for ln(1 + y), y = x - 1, with the accumulator loop proved against it. |
| TermInfos.SerieNegativa | EstructurasDatosProyecto/Models/TermInfo.cs:115-134 | For y < 0 every partial sum of the series is negative. |
| TermInfos.SeriePositiva | EstructurasDatosProyecto/Models/TermInfo.cs:115-134 | For 0 < y ≤ 1 every even partial sum is positive. |
| TermInfos.Log10AproxSigno | EstructurasDatosProyecto/Models/TermInfo.cs:86-135 | The approximate log10 is positive on (1, 2] and negative on [0.3, 1). |
| TermInfos.TermInfo.ActualizarTfIdfPostings | EstructurasDatosProyecto/Models/TermInfo.cs:140-151 | Every posting's tf-idf becomes frequency times the term's idf. The term, its idf, its document frequency and the postings' ids and frequencies are unchanged. |
| TermInfos.TermInfo.RecorrerActualizando | EstructurasDatosProyecto/Models/TermInfo.cs:144-150 | The cursor loop updates each posting value as `ActualizarVista` says, and does not touch the list. |
| TermInfos.TermInfo.ActualizarSiguiente | EstructurasDatosProyecto/Models/TermInfo.cs:148-149 | One step of that loop: the next posting gets its weight, and the others keep theirs. |
| TermInfos.ActualizarVista | EstructurasDatosProyecto/Models/TermInfo.cs:140-151 | Same number of postings, each with tf-idf = frequency × idf. |
| TermInfos.ActualizarIdempotente | EstructurasDatosProyecto/Models/TermInfo.cs:140-151 | Recomputing the weights a second time changes nothing. |
| TermInfos.ActualizarConservaIds | EstructurasDatosProyecto/Models/TermInfo.cs:140-151 | Recomputing the weights keeps the set of documents and their distinctness. |
| TermInfos.ActualizarFrecuenciaTotal | EstructurasDatosProyecto/Models/TermInfo.cs:140-151 | Recomputing the weights keeps the total frequency. |
| TermInfos.EsIgualPorTermino | EstructurasDatosProyecto/Models/TermInfo.cs:172-183 | Two terms are equal exactly when their strings are, and never equal to null. `Equals` agrees with `EsIgual` and is an equivalence. |
| TermInfos.TermInfo.EsIgual | EstructurasDatosProyecto/Models/TermInfo.cs:172-176 | Never equal to null, and every term equals itself. `EsIgualPorTermino` gives the characterisation by the term string. |
| TermInfos.TermInfo.Equals | EstructurasDatosProyecto/Models/TermInfo.cs:179-183 | True only for `TermInfo` objects, and every term equals itself. |
| IndexBasica.ProcesarDocumento | EstructurasDatosProyecto/Strategies/EstrategiaIndexBasica.cs:8-44 | A null or unprocessed document changes nothing. Otherwise the document is appended unless one with its id is listed. Each distinct non-empty token, in first-seen order, gets its `TermInfo` (appended when absent) and a posting with the token's count. |
| IndexBasica.ProcesarProcesado | EstructurasDatosProyecto/Strategies/EstrategiaIndexBasica.cs:13-43 | The part past the guard: register, then ingest the document's distinct terms. |
| IndexBasica.RegistrarDocumento | EstructurasDatosProyecto/Strategies/EstrategiaIndexBasica.cs:13-16 | The document is appended exactly when no listed document has its id. |
| IndexBasica.IngerirTerminos | EstructurasDatosProyecto/Strategies/EstrategiaIndexBasica.cs:22-43 | The loop over the document's distinct terms does one `PasoTermino` per term, in order. |
| IndexBasica.IngerirTermino | EstructurasDatosProyecto/Strategies/EstrategiaIndexBasica.cs:25-42 | For a non-empty term: find or create its `TermInfo`, then add the document's posting. |
| IndexBasica.CrearTermino | EstructurasDatosProyecto/Strategies/EstrategiaIndexBasica.cs:30-42 | A new `TermInfo` holding the document's posting is appended, and the other terms keep their state. |
| IndexBasica.InsertarTermino | EstructurasDatosProyecto/Strategies/EstrategiaIndexBasica.cs:30-35 | A fresh, empty `TermInfo` for the term is appended to the list, and the other terms keep their state. |
| IndexBasica.AgregarEn | EstructurasDatosProyecto/Strategies/EstrategiaIndexBasica.cs:38-42 | The k-th term receives the posting, and every other term keeps its state. |
| IndexBasica.NuevoPostingEn | EstructurasDatosProyecto/Strategies/EstrategiaIndexBasica.cs:38-42 | A new posting with the document's id and count, given to the term with `AgregarPosting`. |
| IndexBasica.PasoTerminoNombres | EstructurasDatosProyecto/Strategies/EstrategiaIndexBasica.cs:22-35 | One pass keeps the term list free of duplicates and keeps earlier terms in place. It adds exactly the (non-empty) term. |
| IndexBasica.PasoTerminoPosting | EstructurasDatosProyecto/Strategies/EstrategiaIndexBasica.cs:30-42 | After one pass the term's `TermInfo` holds the document's posting. For a document new to the term, that posting is appended with the token's count in the document. |
| IndexBasica.IngerirNombres | EstructurasDatosProyecto/Strategies/EstrategiaIndexBasica.cs:22-43 | Ingesting a document keeps the term list duplicate-free and extends it with exactly its non-empty new terms, at the end. |
| IndexBasica.NombresDe | EstructurasDatosProyecto/Strategies/EstrategiaIndexBasica.cs:86-102 | The terms of the list, one per `TermInfo`, in order. |
| IndexBasica.BuscarTermino | EstructurasDatosProyecto/Strategies/EstrategiaIndexBasica.cs:86-102 | Returns null exactly when no `TermInfo` has the term, and otherwise the first one that does. |
| IndexBasica.TerminoSiguiente | EstructurasDatosProyecto/Strategies/EstrategiaIndexBasica.cs:92-99 | One step of that search: a match is the first one, and a miss extends the prefix known not to match. |
| IndexBasica.ExisteDocumento | EstructurasDatosProyecto/Strategies/EstrategiaIndexBasica.cs:105-121 | True exactly when a listed document has the same id (`esIgual`). |
| IndexBasica.DocumentoSiguiente | EstructurasDatosProyecto/Strategies/EstrategiaIndexBasica.cs:111-118 | One step of that search: the ids walked so far grow by the next document's. |
| IndexBasica.ProcesarDocumentos | EstructurasDatosProyecto/Strategies/EstrategiaIndexBasica.cs:46-60 | The documents are ingested one after another, in list order. The caller's document list is not modified; the temporary list is fresh. |
| IndexBasica.Preparar | EstructurasDatosProyecto/Strategies/EstrategiaIndexBasica.cs:48-53 | The loop starts with a fresh empty temporary list and a cursor at the first document. |
| IndexBasica.ProcesarSiguiente | EstructurasDatosProyecto/Strategies/EstrategiaIndexBasica.cs:55-59 | One more document ingested. |
| IndexBasica.TomarDocumento | EstructurasDatosProyecto/Strategies/EstrategiaIndexBasica.cs:57 | Taking the next document from the cursor leaves the terms as they were. |
| IndexBasica.IngerirPendiente | EstructurasDatosProyecto/Strategies/EstrategiaIndexBasica.cs:58 | Processing the taken document changes the terms as `IngerirDocumento` says. |
| IndexBasica.IngerirDocumentosPaso | EstructurasDatosProyecto/Strategies/EstrategiaIndexBasica.cs:55-59 | Ingesting one more document extends the result of ingesting the earlier ones. |
| IndexBasica.CalcularTfIdf | EstructurasDatosProyecto/Strategies/EstrategiaIndexBasica.cs:62-78 | Nothing changes for an empty term list or a corpus of no documents. Otherwise every term gets its idf and then its postings' weights. |
| IndexBasica.FinalizarSiguiente | EstructurasDatosProyecto/Strategies/EstrategiaIndexBasica.cs:68-77 | One step of that loop: the finalised prefix grows by one term and the rest is untouched. |
| IndexBasica.FinalizarEn | EstructurasDatosProyecto/Strategies/EstrategiaIndexBasica.cs:70-76 | `CalcularIdf` then `ActualizarTfIdfPostings` on the k-th term. The others keep their state. |
| IndexBasica.FinalizadosPaso | EstructurasDatosProyecto/Strategies/EstrategiaIndexBasica.cs:68-77 | Finalising term k extends the finalised prefix by one. |
| IndexBasica.CalcularTfIdfIdempotente | EstructurasDatosProyecto/Strategies/EstrategiaIndexBasica.cs:62-78 | Running the finalisation pass twice with the same corpus size gives the same terms as running it once. |
| IndexBasica.NombresDeVistas | EstructurasDatosProyecto/Strategies/EstrategiaIndexBasica.cs:86-102 | The terms read through the states agree with the objects' terms. |
| BusquedaCoseno.BuscarDocumentos | EstructurasDatosProyecto/Strategies/EstrategiaBusquedaCoseno.cs:22-60 | The results are a permutation of `Busqueda`, sorted by non-increasing similarity. `Busqueda` is empty for an empty query, index or collection, or a zero query vector. Otherwise it holds one hit per document with positive similarity. |
| BusquedaCoseno.EvaluarYOrdenar | EstructurasDatosProyecto/Strategies/EstrategiaBusquedaCoseno.cs:39-59 | Scoring every document and sorting gives a sorted permutation of the positive hits. |
| BusquedaCoseno.EvaluarDocumentos | EstructurasDatosProyecto/Strategies/EstrategiaBusquedaCoseno.cs:39-56 | One result per document whose similarity is positive, none for the others, in document order. |
| BusquedaCoseno.IniciarEvaluacion | EstructurasDatosProyecto/Strategies/EstrategiaBusquedaCoseno.cs:38-40 | The loop starts from an empty result list and a cursor at the first document. |
| BusquedaCoseno.AvanzarEvaluacion | EstructurasDatosProyecto/Strategies/EstrategiaBusquedaCoseno.cs:41-55 | One turn of the document loop keeps the results equal to the hits of the documents walked. |
| BusquedaCoseno.EvaluarSiguiente | EstructurasDatosProyecto/Strategies/EstrategiaBusquedaCoseno.cs:41-55 | The next document's hit, if its similarity is positive, is appended. |
| BusquedaCoseno.EvaluarDocumento | EstructurasDatosProyecto/Strategies/EstrategiaBusquedaCoseno.cs:44-54 | A document is appended, with its similarity and the query, exactly when its similarity is positive. |
| BusquedaCoseno.AciertosPaso | EstructurasDatosProyecto/Strategies/EstrategiaBusquedaCoseno.cs:41-55 | One more document adds its hit, if any, at the end. |
| BusquedaCoseno.AciertosSon | EstructurasDatosProyecto/Strategies/EstrategiaBusquedaCoseno.cs:39-56 | A result is present exactly when some document has a positive similarity and that result's fields. |
| BusquedaCoseno.AciertoComparteTermino | EstructurasDatosProyecto/Strategies/EstrategiaBusquedaCoseno.cs:22-60 | Every document found has positive similarity and shares with the query a term that has a posting for it. |
| BusquedaCoseno.CrearVectorConsulta | EstructurasDatosProyecto/Strategies/EstrategiaBusquedaCoseno.cs:63-103 | No vector for an empty query, an empty index or a query with no tokens. Otherwise one component per index term, in list order: the term's count among the query's tokens times its idf. |
| BusquedaCoseno.TokenizarConsulta | EstructurasDatosProyecto/Strategies/EstrategiaBusquedaCoseno.cs:71-72 | The query normalised, then tokenised. |
| BusquedaCoseno.PesarTerminos | EstructurasDatosProyecto/Strategies/EstrategiaBusquedaCoseno.cs:84-100 | The weights of all index terms, in list order. |
| BusquedaCoseno.PesoSiguiente | EstructurasDatosProyecto/Strategies/EstrategiaBusquedaCoseno.cs:89-99 | The next term's weight: its count in the query times its idf. |
| BusquedaCoseno.ConsultaCero | EstructurasDatosProyecto/Strategies/EstrategiaBusquedaCoseno.cs:84-100 | The query vector is zero exactly when every index term is absent from the query or has idf 0. |
| BusquedaCoseno.CrearVectorDocumento | EstructurasDatosProyecto/Strategies/EstrategiaBusquedaCoseno.cs:106-140 | No vector for a null document. Otherwise one component per index term: the tf-idf of the term's posting for the document, or 0 when there is none. |
| BusquedaCoseno.TfIdfDe | EstructurasDatosProyecto/Strategies/EstrategiaBusquedaCoseno.cs:125-132 | A term's tf-idf for the document, or 0 without a posting. |
| BusquedaCoseno.TfIdfSiguiente | EstructurasDatosProyecto/Strategies/EstrategiaBusquedaCoseno.cs:121-137 | The next term's component of the document vector. |
| BusquedaCoseno.DocumentoCero | EstructurasDatosProyecto/Strategies/EstrategiaBusquedaCoseno.cs:114-137 | A non-zero component of a document's vector comes from a term with a posting for the document. |
| BusquedaCoseno.SimilitudEsCoseno | EstructurasDatosProyecto/Strategies/EstrategiaBusquedaCoseno.cs:143-172 | The guarded similarity equals the cosine of `SimilitudCoseno`, with its NaN read as 0. |
| BusquedaCoseno.Similitud | EstructurasDatosProyecto/Strategies/EstrategiaBusquedaCoseno.cs:143-172 | A non-zero similarity needs two non-empty vectors of one dimension with a non-zero dot product. Every guard that returns 0.0 is covered. |
| BusquedaCoseno.SimilitudPropiedades | EstructurasDatosProyecto/Strategies/EstrategiaBusquedaCoseno.cs:143-172 | The similarity is symmetric, 0 when either vector is zero, non-negative on non-negative weights, and 1 for a non-zero vector with itself under an exact root. |
| BusquedaCoseno.SimilitudPositiva | EstructurasDatosProyecto/Strategies/EstrategiaBusquedaCoseno.cs:143-172 | A positive similarity needs two non-empty vectors of one dimension that are both non-zero at some position. |
| BusquedaCoseno.PuntoNoCero | EstructurasDatosProyecto/Strategies/EstrategiaBusquedaCoseno.cs:155-169 | A non-zero dot product has a position where both vectors are non-zero. |
| BusquedaCoseno.ContarFrecuenciaTermino | EstructurasDatosProyecto/Strategies/EstrategiaBusquedaCoseno.cs:181-198 | The number of tokens equal to the term, and 0 for an empty term. |
| BusquedaCoseno.OrdenarResultadosPorSimilitud | EstructurasDatosProyecto/Strategies/EstrategiaBusquedaCoseno.cs:201-228 | Lists of at most one element are returned as they are. Otherwise a new list that is a permutation of the input, by non-increasing similarity. |
| BusquedaCoseno.OrdenarBurbuja | EstructurasDatosProyecto/Strategies/EstrategiaBusquedaCoseno.cs:212-224 | The in-place bubble sort leaves a permutation of the array sorted by non-increasing similarity. |
| BusquedaCoseno.Pasada | EstructurasDatosProyecto/Strategies/EstrategiaBusquedaCoseno.cs:214-223 | One pass extends the sorted suffix by one and keeps the array a permutation. |
| BusquedaCoseno.Intercambiar | EstructurasDatosProyecto/Strategies/EstrategiaBusquedaCoseno.cs:219-221 | Exchanges two neighbouring slots. |
| BusquedaCoseno.BurbujaPaso | EstructurasDatosProyecto/Strategies/EstrategiaBusquedaCoseno.cs:217-222 | A compare-and-swap carries the prefix's least similarity one step right, keeps the sorted suffix and permutes. |
| BusquedaCoseno.BurbujaFin | EstructurasDatosProyecto/Strategies/EstrategiaBusquedaCoseno.cs:214-223 | At the end of a pass the sorted suffix grows by one. |
| BusquedaCoseno.ConvertirListaAArreglo | EstructurasDatosProyecto/Strategies/EstrategiaBusquedaCoseno.cs:231-246 | A fresh array of the list's size holding its elements in list order. |
| BusquedaCoseno.ConvertirArregloALista | EstructurasDatosProyecto/Strategies/EstrategiaBusquedaCoseno.cs:249-259 | A fresh list holding the array's elements in array order, so list to array to list gives the same elements in the same order. |
| BusquedaCoseno.VistaResultados | EstructurasDatosProyecto/Search/ResultadoBusqueda.cs:7-9 | Each result read as its three fields, in order. |
| Documentos.ExtraerNombreArchivo | EstructurasDatosProyecto/Crawling/Documento.cs:68-122 | The text after the last `\` or `/`, cut before its last `.` when it has one. |
| Documentos.NombreArchivo | EstructurasDatosProyecto/Crawling/Documento.cs:68-122 | A prefix of the last path component with no separator. It is cut exactly at the component's last dot, and is the whole component when there is no dot. |
| Documentos.NombreArchivoEjemplos | EstructurasDatosProyecto/Crawling/Documento.cs:68-122 | Examples: "a/b/c.txt" gives "c", "c:\\docs\\informe.final.txt" gives "informe.final", "carpeta/" gives "". |
| Documentos.NombreArchivoSimple | EstructurasDatosProyecto/Crawling/Documento.cs:68-122 | "a/b/c.txt" gives "c". |
| Documentos.NombreArchivoDosPuntos | EstructurasDatosProyecto/Crawling/Documento.cs:99-120 | Only the last dot counts: "informe.final.txt" gives "informe.final". |
| Documentos.BuscarUltimo | EstructurasDatosProyecto/Crawling/Documento.cs:73-81 | The backward scan finds the last matching position, or -1. |
| Documentos.UltimaPosicion | EstructurasDatosProyecto/Crawling/Documento.cs:73-81 | A matching position after which nothing matches, or -1 when nothing matches. |
| Documentos.Copiar | EstructurasDatosProyecto/Crawling/Documento.cs:91-96 | The character-by-character copy is the slice. |
| Documentos.GenerarIdDesdeRuta | EstructurasDatosProyecto/Crawling/Documento.cs:55-66 | "DOC_" plus the file name when it is non-empty, and "DOC_" plus the clock reading otherwise. |
| Documentos.Documento.constructor | EstructurasDatosProyecto/Crawling/Documento.cs:19-29 | An empty, unprocessed document. |
| Documentos.Documento.DesdeRuta | EstructurasDatosProyecto/Crawling/Documento.cs:31-41 | A document whose id comes from its path, empty and unprocessed. |
| Documentos.Documento.ConId | EstructurasDatosProyecto/Crawling/Documento.cs:43-53 | A document with the given id and path, empty and unprocessed. |
| Documentos.Documento.SetContenido | EstructurasDatosProyecto/Crawling/Documento.cs:149-160 | Stores the text, with null stored as "". Marks the document unprocessed. Nothing else changes. |
| Documentos.Documento.SetId | EstructurasDatosProyecto/Crawling/Documento.cs:162-172 | Stores the id, with null stored as "". Nothing else changes. |
| Documentos.Documento.ProcesarContenido | EstructurasDatosProyecto/Crawling/Documento.cs:174-187 | The normalised text and its tokens. Empty text yields "" and no tokens. The document is then processed, and its id, path and raw text are unchanged. |
| Documentos.Documento.TieneTermino | EstructurasDatosProyecto/Crawling/Documento.cs:224-237 | True exactly when the term is non-empty and some token equals it. |
| Documentos.Documento.ContarFrecuenciaTermino | EstructurasDatosProyecto/Crawling/Documento.cs:239-253 | The number of tokens equal to the term, and 0 for the empty term. |
| Documentos.TieneSiFrecuenciaPositiva | EstructurasDatosProyecto/Crawling/Documento.cs:224-253 | `tieneTermino` holds exactly when `contarFrecuenciaTermino` is positive. |
| Documentos.Documento.GetTerminosUnicos | EstructurasDatosProyecto/Crawling/Documento.cs:255-274 | A fresh array of the distinct tokens in order of first occurrence. |
| Documentos.Unicos | EstructurasDatosProyecto/Crawling/Documento.cs:255-274 | No repeats, and exactly the elements of the input. |
| Documentos.UnicosEnOrden | EstructurasDatosProyecto/Crawling/Documento.cs:255-274 | Earlier distinct terms first occur earlier in the tokens. |
| Documentos.UnicosPaso | EstructurasDatosProyecto/Crawling/Documento.cs:264-271 | One more token is appended to the distinct ones exactly when it was not seen. |
| Documentos.ExisteEnLista | EstructurasDatosProyecto/Crawling/Documento.cs:276-291 | True exactly when the list holds the element. |
| Documentos.ConvertirListaAArreglo | EstructurasDatosProyecto/Crawling/Documento.cs:293-307 | A fresh array holding the list's elements in order. |
| Documentos.EsIgualPorId | EstructurasDatosProyecto/Crawling/Documento.cs:309-313 | Two documents are equal exactly when their ids are, and never equal to null. The relation is an equivalence. |
| Documentos.Documento.EsIgual | EstructurasDatosProyecto/Crawling/Documento.cs:309-313 | Never equal to null, and every document equals itself. `EsIgualPorId` gives the characterisation by id and the equivalence laws. |
| Documentos.TokensNormalizados | EstructurasDatosProyecto/Crawling/Documento.cs:174-187 | A processed document's tokens are non-empty words of letters and digits, none of them a stopword. |
| Normalizacion.NormalizarTexto | EstructurasDatosProyecto/Processing/Normalizer.cs:11-21 | The four steps in order, and "" for the empty text. |
| Normalizacion.ConvertirAMinusculas | EstructurasDatosProyecto/Processing/Normalizer.cs:23-41 | The loop computes `Minusculas`. |
| Normalizacion.Minuscula | EstructurasDatosProyecto/Processing/Normalizer.cs:30-37 | 'A'..'Z' move up by 32. Every other character is unchanged. No capital letter is left. |
| Normalizacion.Minusculas | EstructurasDatosProyecto/Processing/Normalizer.cs:23-41 | Same length, each character lower-cased by `Minuscula`. |
| Normalizacion.MinusculasIdempotente | EstructurasDatosProyecto/Processing/Normalizer.cs:23-41 | Lower-casing twice is lower-casing once, and leaves no capital. |
| Normalizacion.EliminarTildes | EstructurasDatosProyecto/Processing/Normalizer.cs:43-60 | The loop computes `SinTildes`. |
| Normalizacion.SinTilde | EstructurasDatosProyecto/Processing/Normalizer.cs:50-56 | á é í ó ú ñ become a e i o u n. No accented letter is left, and everything else is unchanged. |
| Normalizacion.SinTildes | EstructurasDatosProyecto/Processing/Normalizer.cs:43-60 | Same length, each character mapped by `SinTilde`. |
| Normalizacion.SinTildesIdempotente | EstructurasDatosProyecto/Processing/Normalizer.cs:43-60 | Stripping accents twice is stripping them once. |
| Normalizacion.LimpiarPuntuacion | EstructurasDatosProyecto/Processing/Normalizer.cs:62-83 | The loop computes `Limpiar`. |
| Normalizacion.Limpiar | EstructurasDatosProyecto/Processing/Normalizer.cs:62-83 | Only [a-z0-9] and spaces. Never a leading space and never two spaces in a row. |
| Normalizacion.LimpiarConservaAlfanumericos | EstructurasDatosProyecto/Processing/Normalizer.cs:62-83 | Cleaning keeps exactly the letters and digits of the input, in order. |
| Normalizacion.LimpiarFijo | EstructurasDatosProyecto/Processing/Normalizer.cs:62-83 | An already clean, single-spaced text is left unchanged. |
| Normalizacion.EliminarStopwords | EstructurasDatosProyecto/Processing/Normalizer.cs:85-106 | The words that are neither empty nor stopwords, joined with single spaces; "" for "". |
| Normalizacion.EsStopword | EstructurasDatosProyecto/Models/StopWords.cs:46-50 | The empty word is never a stopword. Any other word is looked up by its lower-case form. |
| Normalizacion.EsStopwordSinMayusculas | EstructurasDatosProyecto/Models/StopWords.cs:46-50 | The lookup ignores capitals: a word is a stopword exactly when its lower-case form is. |
| Normalizacion.UnirValidas | EstructurasDatosProyecto/Processing/Normalizer.cs:92-103 | The word loop joins the surviving words with single spaces. |
| Normalizacion.AgregarSiValida | EstructurasDatosProyecto/Processing/Normalizer.cs:94-102 | One word of the loop: it is appended after a space when something came before, and skipped when empty or a stopword. |
| Normalizacion.ValidasPaso | EstructurasDatosProyecto/Processing/Normalizer.cs:94-102 | One more word is kept exactly when it is neither empty nor a stopword. |
| Normalizacion.SinStopwordsPaso | EstructurasDatosProyecto/Processing/Normalizer.cs:94-102 | One more word leaves the joined survivors alone or appends it, after a space when something came before. |
| Normalizacion.Validas | EstructurasDatosProyecto/Processing/Normalizer.cs:92-103 | No more words than the input; every survivor is a non-empty non-stopword taken from the input. |
| Normalizacion.ValidasConcat | EstructurasDatosProyecto/Processing/Normalizer.cs:92-103 | The filter commutes with concatenation, so the words keep their order. |
| Normalizacion.SinStopwordsPalabras | EstructurasDatosProyecto/Processing/Normalizer.cs:85-106 | Splitting the result gives back exactly the surviving words, in their original order. |
| Normalizacion.SinStopwordsEspaciado | EstructurasDatosProyecto/Processing/Normalizer.cs:85-106 | The result has no leading, trailing or double space. |
| Normalizacion.NormalizadoForma | EstructurasDatosProyecto/Processing/Normalizer.cs:11-21 | Every character of the output is in [a-z0-9 ], with single spacing. |
| Normalizacion.NormalizadoSinStopwords | EstructurasDatosProyecto/Processing/Normalizer.cs:11-21 | Every word of the output is non-empty and not a stopword. |
| Texto.Partir | EstructurasDatosProyecto/Processing/Tokenizer.cs:17 | `Split(' ')`: at least one piece, none holding a space. |
| Texto.UnirPartir | EstructurasDatosProyecto/Processing/Normalizer.cs:89-103 | Joining the pieces of a split with single spaces gives back the text. |
| Texto.PartirUnir | EstructurasDatosProyecto/Processing/Normalizer.cs:89-103 | Splitting a single-space join of space-free words gives back the words. |
| Texto.PartirConcat | EstructurasDatosProyecto/Processing/Tokenizer.cs:17 | A space splits the text into two independent halves. |
| Texto.PartirSobre | EstructurasDatosProyecto/Processing/Tokenizer.cs:17 | Every character of every piece comes from the text. |
| Texto.UnirPalabras | EstructurasDatosProyecto/Processing/Normalizer.cs:97-101 | Joining non-empty space-free words gives single spacing, and "" only for no words. |
| Texto.UnirAgregar | EstructurasDatosProyecto/Processing/Normalizer.cs:97-101 | Appending a word: after a space when the text so far is non-empty. |
| Tokenizacion.TokenizarTexto | EstructurasDatosProyecto/Processing/Tokenizer.cs:10-46 | A fresh array: empty for "", otherwise the trimmed non-empty pieces of the split, in order. |
| Tokenizacion.ContarTokens | EstructurasDatosProyecto/Processing/Tokenizer.cs:21-28 | The counting pass returns the number of non-empty trimmed pieces. |
| Tokenizacion.LlenarTokens | EstructurasDatosProyecto/Processing/Tokenizer.cs:35-43 | The filling pass writes exactly those tokens, in order, into the array the counting pass sized. |
| Tokenizacion.LlenarPaso | EstructurasDatosProyecto/Processing/Tokenizer.cs:37-42 | One piece of the filling pass keeps the filled prefix equal to the tokens so far. |
| Tokenizacion.ColocarToken | EstructurasDatosProyecto/Processing/Tokenizer.cs:37-42 | A trimmed non-empty piece goes to the next cell, and an empty one is skipped. |
| Tokenizacion.TokensPrefijo | EstructurasDatosProyecto/Processing/Tokenizer.cs:31-43 | A prefix of the pieces never has more tokens than the whole, so the fill never writes out of bounds. |
| Tokenizacion.TokensPaso | EstructurasDatosProyecto/Processing/Tokenizer.cs:35-43 | One more piece appends its trimmed form when non-empty. |
| Tokenizacion.Tokens | EstructurasDatosProyecto/Processing/Tokenizer.cs:17-44 | No more tokens than pieces, none of them empty. |
| Tokenizacion.TokenizadoSonPiezas | EstructurasDatosProyecto/Processing/Tokenizer.cs:17-44 | No token is empty or holds a space. The tokens of a non-empty text are its non-empty space-split pieces, in order. |
| Tokenizacion.UnirTokens | EstructurasDatosProyecto/Processing/Tokenizer.cs:10-46 | The tokens of a single-spaced text, joined with single spaces, give the text back. |
| Tokenizacion.TokensDePiezas | EstructurasDatosProyecto/Processing/Tokenizer.cs:17-44 | On space-free pieces, trimming changes nothing, so the tokens are exactly the non-empty pieces. |
| Tokenizacion.LimpiarPalabra | EstructurasDatosProyecto/Processing/Tokenizer.cs:48-78 | The two scans and the copy compute `Recortar`. |
| Tokenizacion.Inicio | EstructurasDatosProyecto/Processing/Tokenizer.cs:55-59 | The number of leading spaces: everything before it is a space, and the character at it is not. |
| Tokenizacion.Fin | EstructurasDatosProyecto/Processing/Tokenizer.cs:61-65 | The length without trailing spaces: everything from it on is a space, and the character before it is not. |
| Tokenizacion.Recortar | EstructurasDatosProyecto/Processing/Tokenizer.cs:48-78 | "" exactly for an all-space word. Otherwise the slice between the leading and the trailing spaces, with no space at either end. |
| Tokenizacion.RecortarIdempotente | EstructurasDatosProyecto/Processing/Tokenizer.cs:48-78 | Trimming twice is trimming once. |
| Tokenizacion.RecortarSinEspacios | EstructurasDatosProyecto/Processing/Tokenizer.cs:48-78 | A word without spaces is left alone. |
| Calculos.Vector.constructor | EstructurasDatosProyecto/Calculos/Vector.cs:15-18 | A fresh zero vector of the given length. |
| Calculos.Vector.DesdeValores | EstructurasDatosProyecto/Calculos/Vector.cs:20-24 | A fresh copy of the values, so later writes to the source array do not reach it. |
| Calculos.Vector.Establecer | EstructurasDatosProyecto/Calculos/Vector.cs:27-31 | The indexer's setter changes exactly one position. |
| Calculos.Vector.Obtener | EstructurasDatosProyecto/Calculos/Vector.cs:27-28 | The indexer's getter reads position i of the contents. `Establecer` then changes exactly the position it writes. |
| Calculos.Vector.Multiplicar | EstructurasDatosProyecto/Calculos/Vector.cs:34-45 | A fresh vector of the same length with the element-wise product. |
| Calculos.Producto | EstructurasDatosProyecto/Calculos/Vector.cs:34-45 | Same length, with position i equal to a[i] * b[i]. |
| Calculos.Vector.ProductoPunto | EstructurasDatosProyecto/Calculos/Vector.cs:48-59 | The sum of the products of matching positions. |
| Calculos.PuntoSimetrico | EstructurasDatosProyecto/Calculos/Vector.cs:48-59 | The dot product is symmetric. |
| Calculos.PuntoEsSumaDelProducto | EstructurasDatosProyecto/Calculos/Vector.cs:34-59 | The dot product is the sum of the element-wise product, so `ProductoPunto` and `operator *` agree. |
| Calculos.Vector.Magnitud | EstructurasDatosProyecto/Calculos/Vector.cs:62-70 | The root of the sum of squares. |
| Calculos.SumaCuadradosCero | EstructurasDatosProyecto/Calculos/Vector.cs:62-70 | The sum of squares is non-negative, and zero exactly for the zero vector. |
| Calculos.MagnitudCero | EstructurasDatosProyecto/Calculos/Vector.cs:62-70 | The magnitude is non-negative, and zero exactly for the zero vector. |
| Calculos.Vector.Normalizar | EstructurasDatosProyecto/Calculos/Vector.cs:73-84 | A fresh vector: the elements divided by the magnitude, or zeros when it is 0. |
| Calculos.Normalizado | EstructurasDatosProyecto/Calculos/Vector.cs:73-84 | The same length as the input. |
| Calculos.NormalizadoDeCero | EstructurasDatosProyecto/Calculos/Vector.cs:75-76 | Normalising the zero vector gives the zero vector of the same length. |
| Calculos.NormalizadoUnitario | EstructurasDatosProyecto/Calculos/Vector.cs:73-84 | With an exact root, a normalised non-zero vector has sum of squares 1. |
| Calculos.PuntoDividido | EstructurasDatosProyecto/Calculos/Vector.cs:79-82 | Dividing both vectors by m scales their dot product by 1/m². |
| Calculos.Vector.ObtenerElementos | EstructurasDatosProyecto/Calculos/Vector.cs:87-92 | A fresh copy equal to the contents. |
| Calculos.Ceros | EstructurasDatosProyecto/Calculos/Vector.cs:15-18 | n zeros. |
| Similitudes.CalcularSimilitud | EstructurasDatosProyecto/Calculos/SimilitudCoseno.cs:12-24 | Requires equal lengths (the source throws otherwise). Returns dot / (\|A\|·\|B\|) with no guard, so a zero magnitude gives NaN. |
| Similitudes.CosenoNaN | EstructurasDatosProyecto/Calculos/SimilitudCoseno.cs:17-23 | The result is NaN exactly when one of the vectors is zero, in which case the division really is 0/0. |
| Similitudes.CosenoSimetrico | EstructurasDatosProyecto/Calculos/SimilitudCoseno.cs:17-23 | The similarity is symmetric. |
| Similitudes.CosenoNoNegativo | EstructurasDatosProyecto/Calculos/SimilitudCoseno.cs:17-23 | On non-negative weights the similarity is NaN or non-negative. |
| Similitudes.CosenoConsigoMismo | EstructurasDatosProyecto/Calculos/SimilitudCoseno.cs:17-23 | With an exact root, a non-zero vector has similarity 1 with itself. |
| Similitudes.CalcularSimilitudes | EstructurasDatosProyecto/Calculos/SimilitudCoseno.cs:28-64 | The results are a permutation of the i-th document's result for every i: one per vector. They are sorted by non-increasing similarity when none is NaN. |
| Similitudes.SimilitudesEnOrden | EstructurasDatosProyecto/Calculos/SimilitudCoseno.cs:36-60 | One result per document vector, in list order: the vector's similarity under the id `IdPara` gives it. |
| Similitudes.SimilitudSiguiente | EstructurasDatosProyecto/Calculos/SimilitudCoseno.cs:38-59 | The traversal body adds the next vector's result. |
| Similitudes.AgregarSimilitud | EstructurasDatosProyecto/Calculos/SimilitudCoseno.cs:38-59 | The next vector's result is appended. |
| Similitudes.ResultadosHastaAgregar | EstructurasDatosProyecto/Calculos/SimilitudCoseno.cs:36-60 | One more result keeps the results equal to those of the vectors walked so far. |
| Similitudes.IdEnPosicion | EstructurasDatosProyecto/Calculos/SimilitudCoseno.cs:41-51 | The id of vector i: i with no id list, the i-th id when the list has one, and i when it is shorter. |
| Similitudes.OrdenarPorSimilitud | EstructurasDatosProyecto/Calculos/SimilitudCoseno.cs:70-108 | An empty list is returned as is. Otherwise a fresh permutation, sorted by non-increasing similarity when no similarity is NaN. |
| Similitudes.CopiarEnArreglo | EstructurasDatosProyecto/Calculos/SimilitudCoseno.cs:77-83 | The array holds the list's elements in order. |
| Similitudes.OrdenarBurbuja | EstructurasDatosProyecto/Calculos/SimilitudCoseno.cs:86-98 | The in-place bubble sort permutes the array. Without NaN, it sorts it descending. |
| Similitudes.Pasada | EstructurasDatosProyecto/Calculos/SimilitudCoseno.cs:88-96 | One pass permutes the prefix and carries its least similarity to the prefix's last slot. |
| Similitudes.PasoBurbujaConserva | EstructurasDatosProyecto/Calculos/SimilitudCoseno.cs:90-95 | A compare-and-swap keeps the pass's invariant. |
| Similitudes.IntercambioPermuta | EstructurasDatosProyecto/Calculos/SimilitudCoseno.cs:92-94 | A swap permutes. |
| Similitudes.IntercambioConserva | EstructurasDatosProyecto/Calculos/SimilitudCoseno.cs:90-95 | A swap keeps the tail, the absence of NaN and the bounds, and moves the running minimum right. |
| Similitudes.ListaDesdeArreglo | EstructurasDatosProyecto/Calculos/SimilitudCoseno.cs:101-105 | A fresh list holding the array's elements in order. |
| TfIdf.CalculadoraTfIdf.constructor | EstructurasDatosProyecto/Indexing/CalculadoraTfIdf.cs:17-21 | Stores the index and the corpus size. |
| TfIdf.CalculadoraTfIdf.CalcularIdf | EstructurasDatosProyecto/Indexing/CalculadoraTfIdf.cs:24-33 | 0 for a term the index does not hold. |
| TfIdf.CalculadoraTfIdf.IdfIndexado | EstructurasDatosProyecto/Indexing/CalculadoraTfIdf.cs:24-33 | Since `df` is never written, every indexed term gets `Log10(N / 0)`. |
| TfIdf.CalculadoraTfIdf.CrearVectorDocumento | EstructurasDatosProyecto/Indexing/CalculadoraTfIdf.cs:36-66 | One weight per listed term, in order: the Tf of the document's first posting times the term's idf, or 0 without one. |
| TfIdf.CalculadoraTfIdf.PesoDocumentoSiguiente | EstructurasDatosProyecto/Indexing/CalculadoraTfIdf.cs:44-63 | The traversal callback sets the next position's weight. |
| TfIdf.CalculadoraTfIdf.TfDocumento | EstructurasDatosProyecto/Indexing/CalculadoraTfIdf.cs:44-60 | The frequency read for one term: 0 when the index does not hold it. |
| TfIdf.TfEnPostings | EstructurasDatosProyecto/Indexing/CalculadoraTfIdf.cs:50-57 | The loop stops at the first posting for the document and returns its Tf, or 0. |
| TfIdf.CalculadoraTfIdf.PesosDocumento | EstructurasDatosProyecto/Indexing/CalculadoraTfIdf.cs:36-66 | One weight per term, in order. |
| TfIdf.CalculadoraTfIdf.PesosDocumentoPaso | EstructurasDatosProyecto/Indexing/CalculadoraTfIdf.cs:44-63 | One more term appends its weight. |
| TfIdf.CalculadoraTfIdf.CrearVectorConsulta | EstructurasDatosProyecto/Indexing/CalculadoraTfIdf.cs:69-94 | One weight per listed term: its count in the query times its idf. |
| TfIdf.CalculadoraTfIdf.PesoConsultaSiguiente | EstructurasDatosProyecto/Indexing/CalculadoraTfIdf.cs:77-91 | The traversal callback sets the next position's weight. |
| TfIdf.ContarEnConsulta | EstructurasDatosProyecto/Indexing/CalculadoraTfIdf.cs:80-86 | The number of query terms equal to the term. |
| TfIdf.CalculadoraTfIdf.PesosConsulta | EstructurasDatosProyecto/Indexing/CalculadoraTfIdf.cs:69-94 | One weight per term, in order. |
| TfIdf.CalculadoraTfIdf.PesosConsultaPaso | EstructurasDatosProyecto/Indexing/CalculadoraTfIdf.cs:77-91 | One more term appends its weight. |
| TfIdf.CalculadoraTfIdf.VectoresCero | EstructurasDatosProyecto/Indexing/CalculadoraTfIdf.cs:36-94 | A document no posting mentions, and a query sharing no term with the list, give the zero vector. |
| TfIdf.CalculadoraTfIdf.BuscarPosicionTermino | EstructurasDatosProyecto/Indexing/CalculadoraTfIdf.cs:103-118 | The first position of the term in the list, or -1. |
| TfIdf.CalculadoraTfIdf.ObtenerTerminoPorPosicion | EstructurasDatosProyecto/Indexing/CalculadoraTfIdf.cs:121-136 | The term at that position, or `None` (`null`) out of range. |
| TfIdf.TfUnico | EstructurasDatosProyecto/Indexing/CalculadoraTfIdf.cs:50-57 | With one posting per document, the Tf read is that of the document's posting. |
| TfIdf.TfTrasAgregar | EstructurasDatosProyecto/Indexing/InvertedIndex.cs:7-24 | After `AddTerm(t, d)` the Tf read for (t, d) is one more, and every other pair reads as before. |
| TfIdf.TfConOcurrencia | EstructurasDatosProyecto/Indexing/InvertedIndex.cs:15-23 | One more occurrence in d raises d's Tf by one and leaves the others unchanged. |
| Indices.InvertedIndex.constructor | EstructurasDatosProyecto/Indexing/InvertedIndex.cs:5 | An empty dictionary, and no call counted yet. |
| Indices.InvertedIndex.AddTerm | EstructurasDatosProyecto/Indexing/InvertedIndex.cs:7-24 | The term's entry (created when absent) records one more occurrence in the document. Other entries are unchanged. The invariant and the call count are kept. |
| Indices.InvertedIndex.GetIndex | EstructurasDatosProyecto/Indexing/InvertedIndex.cs:26-29 | The dictionary itself. Every entry is under its own term, has `Df` 0, and holds one posting per document. |
| Indices.PosicionDoc | EstructurasDatosProyecto/Indexing/InvertedIndex.cs:15 | The first posting for the document, or -1 when there is none. |
| Indices.AgregarEfecto | EstructurasDatosProyecto/Indexing/InvertedIndex.cs:7-24 | `AddTerm` adds the term to the keys and leaves every other entry alone. A new term's entry holds exactly one posting with Tf 1. `Df` stays 0. |
| Indices.AgregarConserva | EstructurasDatosProyecto/Indexing/InvertedIndex.cs:7-24 | `AddTerm` keeps the index valid. The total Tf over all postings equals the number of calls. |
| Indices.ConOcurrenciaConserva | EstructurasDatosProyecto/Indexing/InvertedIndex.cs:15-23 | One occurrence keeps one posting per document and adds one to the Tf total. A new document gets an appended posting with Tf 1. |
| Indices.ConOcurrenciaExistente | EstructurasDatosProyecto/Indexing/InvertedIndex.cs:20-23 | An existing posting gets Tf + 1, and no posting is added. |
| Indices.AgregarExistente | EstructurasDatosProyecto/Indexing/InvertedIndex.cs:20-23 | Replacing a known term's entry by one with one more occurrence keeps the index valid with one more call counted and the same keys. |
| Indices.AgregarNuevo | EstructurasDatosProyecto/Indexing/InvertedIndex.cs:9-19 | Storing a new term whose entry counts one occurrence keeps the index valid, with the term appended to the keys. |
| Indices.EntradasTras | EstructurasDatosProyecto/Indexing/InvertedIndex.cs:9-23 | Storing a well-formed entry under its own term keeps every entry under its term, with `Df` 0 and one posting per document. |
| Indices.DosVecesElMismoDocumento | EstructurasDatosProyecto/Indexing/InvertedIndex.cs:7-24 | `AddTerm("cat", 1)` twice gives one posting with Tf 2. |
| Indices.TotalTfCambio | EstructurasDatosProyecto/Indexing/InvertedIndex.cs:16-23 | Replacing one entry changes the total by the difference of its sums. |
| Indices.SumaTfIncremento | EstructurasDatosProyecto/Indexing/InvertedIndex.cs:20-23 | Incrementing one Tf raises the sum by one. |
| Vocabularios.Vocabulario.constructor | EstructurasDatosProyecto/Models/Vovabulario.cs:13-16 | An empty vocabulary. |
| Vocabularios.Vocabulario.AgregarTermino | EstructurasDatosProyecto/Models/Vovabulario.cs:18-26 | A known term changes nothing. A new term is appended at the end. There are never duplicates. |
| Vocabularios.AgregarDosVeces | EstructurasDatosProyecto/Models/Vovabulario.cs:18-26 | The size grows by at most one per call, and adding the same term twice equals adding it once. |
| Vocabularios.Vocabulario.ObtenerIndice | EstructurasDatosProyecto/Models/Vovabulario.cs:28-43 | The first position of the term, or -1. |
| Vocabularios.Vocabulario.ObtenerTermino | EstructurasDatosProyecto/Models/Vovabulario.cs:45-60 | The term at the index, or `None` (`null`) out of range. |
| Vocabularios.IndiceYTerminoInversos | EstructurasDatosProyecto/Models/Vovabulario.cs:28-60 | `ObtenerTermino(ObtenerIndice(t)) == t` for an added term. In a vocabulary every position is its own term's index. |
| Vocabularios.Vocabulario.Count | EstructurasDatosProyecto/Models/Vovabulario.cs:62-65 | The number of terms. |
| Vocabularios.Vocabulario.EstaVacio | EstructurasDatosProyecto/Models/Vovabulario.cs:72-75 | True exactly when the count is 0. |
| Resultados.ResultadoBusqueda.Vacio | EstructurasDatosProyecto/Search/ResultadoBusqueda.cs:12-17 | No document, similarity 0, empty query. |
| Resultados.ResultadoBusqueda.ConSimilitud | EstructurasDatosProyecto/Search/ResultadoBusqueda.cs:20-25 | Stores document and similarity, with an empty query. |
| Resultados.ResultadoBusqueda.constructor | EstructurasDatosProyecto/Search/ResultadoBusqueda.cs:28-33 | Stores all three fields. |
| Resultados.ResultadoBusqueda.EstablecerSimilitud | EstructurasDatosProyecto/Search/ResultadoBusqueda.cs:54-60 | Takes the value only in [0, 1]; otherwise the state is unchanged. So a similarity in [0, 1] stays in [0, 1] whatever is set. The other fields never change. |
| Resultados.EsMasRelevanteOrdenEstricto | EstructurasDatosProyecto/Search/ResultadoBusqueda.cs:63-67 | True against null. Otherwise a strict order on similarity: irreflexive, asymmetric and transitive. |
| Resultados.ResultadoBusqueda.EsMasRelevante | EstructurasDatosProyecto/Search/ResultadoBusqueda.cs:63-67 | Every result beats null, and no result beats itself. |
| Resultados.EsIgualCasos | EstructurasDatosProyecto/Search/ResultadoBusqueda.cs:70-76 | False for null. Two null documents are equal, and exactly one null makes them unequal. Otherwise the document ids decide. |
| Resultados.ResultadoBusqueda.EsIgual | EstructurasDatosProyecto/Search/ResultadoBusqueda.cs:70-76 | Never equal to null, and every result equals itself, including one with no document. |
| Resultados.ResultadoBusqueda.Clonar | EstructurasDatosProyecto/Search/ResultadoBusqueda.cs:93-96 | A fresh result with the same three fields. |
| Lector.LectorDirectorios.constructor | EstructurasDatosProyecto/Utils/LectorDirectorios.cs:17-23 | Recursive, 1024 to 1048576 bytes, counter 0. |
| Lector.LectorDirectorios.Personalizado | EstructurasDatosProyecto/Utils/LectorDirectorios.cs:26-32 | A non-positive minimum becomes 1024. The maximum becomes 1048576 unless it exceeds the raw minimum argument. Counter 0. |
| Lector.RangoPersonalizadoInvertido | EstructurasDatosProyecto/Utils/LectorDirectorios.cs:26-32 | Because the maximum is compared with the raw minimum, (0, 500) yields the inverted range (1024, 500). A positive minimum never gives an inverted range unless one was asked for. |
| Lector.RangoPersonalizadoPositivo | EstructurasDatosProyecto/Utils/LectorDirectorios.cs:26-32 | A positive minimum is kept, a larger maximum is kept, and a minimum below 1 MB always ends below the maximum. |
| Lector.LectorDirectorios.ConfigurarRangoTamanos | EstructurasDatosProyecto/Utils/LectorDirectorios.cs:321-328 | Both bounds change only when 0 < min < max. Otherwise nothing changes. |
| Lector.LectorDirectorios.ConfigurarLecturaRecursiva | EstructurasDatosProyecto/Utils/LectorDirectorios.cs:315-318 | Sets only the recursion flag. |
| Lector.LectorDirectorios.ReiniciarContador | EstructurasDatosProyecto/Utils/LectorDirectorios.cs:355-358 | The counter becomes 0, and the configuration is unchanged. |
| Lector.EsArchivoTexto | EstructurasDatosProyecto/Utils/LectorDirectorios.cs:88-125 | True exactly when the last path component has a final `.` that is not the path's last character, followed by "txt" in any ASCII case. False for "". |
| Lector.UltimoPuntoEn | EstructurasDatosProyecto/Utils/LectorDirectorios.cs:97-108 | The backward scan's result: the last `.` with no separator after it, or -1. |
| Lector.ExtensionTxtEjemplos | EstructurasDatosProyecto/Utils/LectorDirectorios.cs:88-125 | "a.TXT" and "notas.v2.txt" pass. A `.txt` directory, a trailing dot and "" do not. |
| Lector.ConvertirAMinusculas | EstructurasDatosProyecto/Utils/LectorDirectorios.cs:128-146 | Same length, only 'A'..'Z' lower-cased; the same mapping as the normaliser's. |
| Lector.ValidarRutaDirectorio | EstructurasDatosProyecto/Utils/LectorDirectorios.cs:178-205 | A path is accepted exactly when it holds a ':'. The non-empty test is implied by that, and the temporary file name built at lines 188-196 has no effect. |
| Lector.ValidarRutaDirectorioCasos | EstructurasDatosProyecto/Utils/LectorDirectorios.cs:178-205 | "" is refused, "c:" is accepted and "/home/docs" is refused. An accepted path stays accepted whatever is appended to it. |

## Left out

- `Crawling/WebCrawler.cs`: network I/O and an HTML parser library. Not part of this model.
- `Program.cs`: console and file-system checks. Not part of this model.
- `Utils/Persistence.cs`: JSON serialisation and file I/O. Not part of this model.
- `Indexing/IndexBuilder.cs`: file reading plus repeated `AddTerm`, which `Indices` covers. Not part of this model.
- `Utils/Tokenizer.cs`: regular expressions and Unicode normalisation. Not part of this model.
- `Models/StopWords.cs`, `Utils/StopWords.cs`: a static, file-loaded, lock-guarded word list. The stopword set is a parameter. `IsStopword` is modelled as lower-casing the word and looking it up, with the empty word never a stopword.
- `LectorDirectorios`: the directory walk, file-size reading, `EsArchivoTextoValido`, and the size-keyed bubble sort, which reads files inside its comparator. These are file-system I/O.
- `Documento.cargarContenido` and `getTimestampActual`: file and clock reads. The clock reading is the parameter `marcaTiempo`.
- `Strategies/IEstrategiaBusqueda.cs`, `Strategies/IEstrategiaIndex.cs`: interfaces with no behaviour. Both strategies are module-level methods. `ObtenerNombreEstrategia` is a constant.
- `Models/ResultadoSimilitud.cs`: a plain record, modelled as a datatype. All `ToString`, `GetHashCode` and the plain getters are formatting or field reads.
- `Models/Nodo.cs`: the node is a cell of the list's arena, not a class.
- `CalculadoraTfIdf.ObtenerTodosLosTerminos`: it calls `InvertedIndex` members that do not exist in `InvertedIndex.cs`. Its callers get the term list as a parameter.
- `CalculadoraTfIdf`: `BuscarTermino` does not exist in `InvertedIndex.cs`. It is modelled as a dictionary lookup that yields null for a missing term.
- `Posting.CalcularTfIdf`: absent from `Posting.cs`. It is modelled as `TermInfo.cs:138-139` describes it, `EstablecerTfIdf(frecuencia * idf)`.
- The array-based files call a for-each `Recorrer` and a predicate `Buscar` on the list, which `ListaDobleCircular.cs` does not have. `Recorrer` is a traversal with the list's cursor, and the predicate `Buscar` is a membership test.
- The two variants (their `Vector`, `TermInfo`/`Posting` shapes and list APIs) are not reconciled.
- The `Vector` type the cosine strategy uses (`EstaVacio`, `EsCero`, `EstablecerElemento`, scalar `*`, `CalcularMagnitud`) is not the one in `Calculos/Vector.cs`. It is not part of this model; the strategy's vectors are `seq<real>`.
- IEEE-754 doubles are `real`, so there is no rounding. `Math.Sqrt` and `Math.Log10` are parameters. `SimilitudCoseno` keeps NaN as its own value. `CalculadoraTfIdf`'s division by df = 0, which is infinite in C#, is whatever `logCociente(n, 0)` returns.
- Integers are unbounded: counters and sizes (`int`, `long`) do not wrap.
- Characters are compared as code points. The normaliser and `LectorDirectorios` lower-case only ASCII 'A'..'Z', as their own loops do.
- The strategies' ghost parameters (`repr`, `vs`, `ids`) only name the heap footprint and the states of the lists' objects. The C# methods do not have them.
- The helper methods named as steps (`...Siguiente`, `...Paso`, `IncrementarEn`, `InsertarNuevo`, `QuitarDelAnillo` and so on) are pieces of one source method split out. Together they do exactly what that method does.
- `Similitudes.OrdenarPorSimilitud`: the order is stated only when no similarity is NaN. C#'s `<` is false on NaN, so the bubble sort then leaves an order that depends on where the NaNs sit.
- `Similitudes.CalcularSimilitudes`: its sortedness is likewise stated only when no similarity is NaN.
- `BusquedaCoseno.OrdenarResultadosPorSimilitud`: the relative order of results with equal similarity is not stated. The bubble sort keeps their list order.
- `TermInfos.CalcularLogaritmoNatural` and `TermInfos.CalcularLogaritmoBase10`: exact over `real`. The model does not capture floating-point rounding of the series.
- `Lector.EsArchivoTexto`: the C# null path is not modelled; "" stands for it.
- Normalizacion.EsStopword: lower-cases with the ASCII map `Minusculas`. C#'s `IsStopword` calls the culture-sensitive `ToLower()` (`Models/StopWords.cs:49`). Inside `NormalizarTexto` every word is already made of [a-z0-9], and there both agree.
- Listas.ListaDobleCircular.Buscar: it matches with Dafny `==`, where C# calls `dato.Equals(...)`. For the value types the model stores, `==` is `Equals`. An overridden `Equals` on a class element (`Posting`, `TermInfo`, `Documento`, `ResultadoBusqueda` compare ids or terms) is not modelled, so the element returned is the stored one only up to `==`. No call site in the source uses these three methods on class elements.
- Listas.ListaDobleCircular.Modificar: the first match is decided by Dafny `==`, not an overridden `Equals`, as for `Buscar`.
- Listas.ListaDobleCircular.Eliminar: the first match is decided by Dafny `==`, not an overridden `Equals`, as for `Buscar`.
- TfIdf.CalculadoraTfIdf.VectoresCero: the zero vector holds only because `logCociente(n, 0)` is a real. In C# every indexed term's idf is `Math.Log10(N / 0)`, which is +∞, or NaN when N = 0. A zero Tf then gives 0 × ∞ = NaN at that component. C# gives 0 only at terms the index does not hold.
- Exceptions thrown by the source on misuse become `requires`: the `ArgumentException` of `Vector`'s `operator *` and `ProductoPunto` for different lengths (`Calculos/Vector.cs:36-37`, `50-51`), `SimilitudCoseno.CalcularSimilitud`'s for different lengths, and the array indexer's out-of-range exception in `Obtener`, `Establecer` and the other members that index a vector. The model states what happens on valid inputs only.
