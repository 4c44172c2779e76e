/** The offline part of `mockTranslateAPI`: a phrase dictionary consulted in
    four stages (exact phrase, phrase contained in the text, single word,
    common word) after the remote service, whose reply is accepted only under
    the rule of `useRealTranslationAPI`. */
module PhraseDictionary {
  import opened Wrappers
  import opened JsStrings
  import LanguageDetection

  /** One entry of a phrase table: a key and its texts by language code. */
  datatype Phrase = Phrase(key: string, values: map<string, string>)

  /** `value[lang]` is truthy: present and not the empty string. */
  predicate HasText(p: Phrase, lang: string) {
    lang in p.values && p.values[lang] != []
  }

  /** The `translations` object, in key order. */
  const Translations: seq<Phrase> := [
    Phrase("مرحبا", map["en" := "Hello", "fr" := "Bonjour", "es" := "Hola", "de" := "Hallo", "it" := "Ciao", "ja" := "こんにちは", "ko" := "안녕하세요", "zh" := "你好"]),
    Phrase("مرحباً", map["en" := "Hello", "fr" := "Bonjour", "es" := "Hola", "de" := "Hallo", "it" := "Ciao", "ja" := "こんにちは", "ko" := "안녕하세요", "zh" := "你好"]),
    Phrase("أهلا", map["en" := "Hello", "fr" := "Bonjour", "es" := "Hola", "de" := "Hallo", "it" := "Ciao", "ja" := "こんにちは", "ko" := "안녕하세요", "zh" := "你好"]),
    Phrase("كيف حالك", map["en" := "How are you", "fr" := "Comment allez-vous", "es" := "Cómo estás", "de" := "Wie geht es dir", "it" := "Come stai", "ja" := "元気ですか", "ko" := "어떻게 지내세요", "zh" := "你好吗"]),
    Phrase("شكرا", map["en" := "Thank you", "fr" := "Merci", "es" := "Gracias", "de" := "Danke", "it" := "Grazie", "ja" := "ありがとう", "ko" := "감사합니다", "zh" := "谢谢"]),
    Phrase("شكراً", map["en" := "Thank you", "fr" := "Merci", "es" := "Gracias", "de" := "Danke", "it" := "Grazie", "ja" := "ありがとう", "ko" := "감사합니다", "zh" := "谢谢"]),
    Phrase("شكرا لك", map["en" := "Thank you", "fr" := "Merci beaucoup", "es" := "Muchas gracias", "de" := "Vielen Dank", "it" := "Grazie mille", "ja" := "ありがとうございます", "ko" := "고맙습니다", "zh" := "谢谢你"]),
    Phrase("بكم هذا", map["en" := "How much is this", "fr" := "Combien ça coûte", "es" := "Cuánto cuesta esto", "de" := "Wie viel kostet das", "it" := "Quanto costa", "ja" := "いくらですか", "ko" := "얼마예요", "zh" := "这个多少钱"]),
    Phrase("أين الفندق", map["en" := "Where is the hotel", "fr" := "Où est l'hôtel", "es" := "Dónde está el hotel", "de" := "Wo ist das Hotel", "it" := "Dov'è l'hotel", "ja" := "ホテルはどこですか", "ko" := "호텔이 어디에 있나요", "zh" := "酒店在哪里"]),
    Phrase("صباح الخير", map["en" := "Good morning", "fr" := "Bonjour", "es" := "Buenos días", "de" := "Guten Morgen", "it" := "Buongiorno", "ja" := "おはようございます", "ko" := "좋은 아침", "zh" := "早上好"]),
    Phrase("مساء الخير", map["en" := "Good evening", "fr" := "Bonsoir", "es" := "Buenas tardes", "de" := "Guten Abend", "it" := "Buonasera", "ja" := "こんばんは", "ko" := "좋은 저녁", "zh" := "晚上好"]),
    Phrase("تصبح على خير", map["en" := "Good night", "fr" := "Bonne nuit", "es" := "Buenas noches", "de" := "Gute Nacht", "it" := "Buonanotte", "ja" := "おやすみなさい", "ko" := "잘 자요", "zh" := "晚安"]),
    Phrase("من فضلك", map["en" := "Please", "fr" := "S'il vous plaît", "es" := "Por favor", "de" := "Bitte", "it" := "Per favore", "ja" := "お願いします", "ko" := "부탁합니다", "zh" := "请"]),
    Phrase("عفواً", map["en" := "Excuse me", "fr" := "Excusez-moi", "es" := "Disculpe", "de" := "Entschuldigung", "it" := "Scusi", "ja" := "すみません", "ko" := "실례합니다", "zh" := "不好意思"]),
    Phrase("آسف", map["en" := "Sorry", "fr" := "Désolé", "es" := "Lo siento", "de" := "Es tut mir leid", "it" := "Mi dispiace", "ja" := "ごめんなさい", "ko" := "죄송합니다", "zh" := "对不起"]),
    Phrase("نعم", map["en" := "Yes", "fr" := "Oui", "es" := "Sí", "de" := "Ja", "it" := "Sì", "ja" := "はい", "ko" := "네", "zh" := "是的"]),
    Phrase("لا", map["en" := "No", "fr" := "Non", "es" := "No", "de" := "Nein", "it" := "No", "ja" := "いいえ", "ko" := "아니요", "zh" := "不"]),
    Phrase("أين", map["en" := "Where", "fr" := "Où", "es" := "Dónde", "de" := "Wo", "it" := "Dove", "ja" := "どこ", "ko" := "어디", "zh" := "哪里"]),
    Phrase("متى", map["en" := "When", "fr" := "Quand", "es" := "Cuándo", "de" := "Wann", "it" := "Quando", "ja" := "いつ", "ko" := "언제", "zh" := "什么时候"]),
    Phrase("ماذا", map["en" := "What", "fr" := "Quoi", "es" := "Qué", "de" := "Was", "it" := "Cosa", "ja" := "何", "ko" := "무엇", "zh" := "什么"]),
    Phrase("كيف", map["en" := "How", "fr" := "Comment", "es" := "Cómo", "de" := "Wie", "it" := "Come", "ja" := "どのように", "ko" := "어떻게", "zh" := "怎么"]),
    Phrase("لماذا", map["en" := "Why", "fr" := "Pourquoi", "es" := "Por qué", "de" := "Warum", "it" := "Perché", "ja" := "なぜ", "ko" := "왜", "zh" := "为什么"]),
    Phrase("من", map["en" := "Who", "fr" := "Qui", "es" := "Quién", "de" := "Wer", "it" := "Chi", "ja" := "誰", "ko" := "누구", "zh" := "谁"]),
    Phrase("أريد", map["en" := "I want", "fr" := "Je veux", "es" := "Quiero", "de" := "Ich möchte", "it" := "Voglio", "ja" := "欲しいです", "ko" := "원합니다", "zh" := "我想要"]),
    Phrase("أحتاج", map["en" := "I need", "fr" := "J'ai besoin", "es" := "Necesito", "de" := "Ich brauche", "it" := "Ho bisogno", "ja" := "必要です", "ko" := "필요합니다", "zh" := "我需要"]),
    Phrase("أحب", map["en" := "I love", "fr" := "J'aime", "es" := "Me gusta", "de" := "Ich liebe", "it" := "Amo", "ja" := "愛しています", "ko" := "사랑합니다", "zh" := "我爱"]),
    Phrase("لا أفهم", map["en" := "I don't understand", "fr" := "Je ne comprends pas", "es" := "No entiendo", "de" := "Ich verstehe nicht", "it" := "Non capisco", "ja" := "分かりません", "ko" := "이해하지 못합니다", "zh" := "我不明白"]),
    Phrase("هل تتحدث العربية", map["en" := "Do you speak Arabic", "fr" := "Parlez-vous arabe", "es" := "Hablas árabe", "de" := "Sprechen Sie Arabisch", "it" := "Parli arabo", "ja" := "アラビア語を話しますか", "ko" := "아랍어를 하시나요", "zh" := "你会说阿拉伯语吗"]),
    Phrase("أين الحمام", map["en" := "Where is the bathroom", "fr" := "Où sont les toilettes", "es" := "Dónde está el baño", "de" := "Wo ist die Toilette", "it" := "Dov'è il bagno", "ja" := "トイレはどこですか", "ko" := "화장실이 어디에 있나요", "zh" := "厕所在哪里"]),
    Phrase("كم الساعة", map["en" := "What time is it", "fr" := "Quelle heure est-il", "es" := "Qué hora es", "de" := "Wie spät ist es", "it" := "Che ore sono", "ja" := "何時ですか", "ko" := "몇 시예요", "zh" := "几点了"]),
    Phrase("أين المطار", map["en" := "Where is the airport", "fr" := "Où est l'aéroport", "es" := "Dónde está el aeropuerto", "de" := "Wo ist der Flughafen", "it" := "Dov'è l'aeroporto", "ja" := "空港はどこですか", "ko" := "공항이 어디에 있나요", "zh" := "机场在哪里"]),
    Phrase("أين المحطة", map["en" := "Where is the station", "fr" := "Où est la gare", "es" := "Dónde está la estación", "de" := "Wo ist der Bahnhof", "it" := "Dov'è la stazione", "ja" := "駅はどこですか", "ko" := "역이 어디에 있나요", "zh" := "车站在哪里"]),
    Phrase("أين المطعم", map["en" := "Where is the restaurant", "fr" := "Où est le restaurant", "es" := "Dónde está el restaurante", "de" := "Wo ist das Restaurant", "it" := "Dov'è il ristorante", "ja" := "レストランはどこですか", "ko" := "레스토랑이 어디에 있나요", "zh" := "餐厅在哪里"]),
    Phrase("الحساب من فضلك", map["en" := "The bill please", "fr" := "L'addition s'il vous plaît", "es" := "La cuenta por favor", "de" := "Die Rechnung bitte", "it" := "Il conto per favore", "ja" := "お会計をお願いします", "ko" := "계산서 주세요", "zh" := "请结账"]),
    Phrase("أنا جائع", map["en" := "I am hungry", "fr" := "J'ai faim", "es" := "Tengo hambre", "de" := "Ich bin hungrig", "it" := "Ho fame", "ja" := "お腹が空いています", "ko" := "배고파요", "zh" := "我饿了"]),
    Phrase("أنا عطشان", map["en" := "I am thirsty", "fr" := "J'ai soif", "es" := "Tengo sed", "de" := "Ich bin durstig", "it" := "Ho sete", "ja" := "喉が渇いています", "ko" := "목말라요", "zh" := "我渴了"]),
    Phrase("ماء من فضلك", map["en" := "Water please", "fr" := "De l'eau s'il vous plaît", "es" := "Agua por favor", "de" := "Wasser bitte", "it" := "Acqua per favore", "ja" := "水をお願いします", "ko" := "물 주세요", "zh" := "请给我水"]),
    Phrase("قهوة من فضلك", map["en" := "Coffee please", "fr" := "Café s'il vous plaît", "es" := "Café por favor", "de" := "Kaffee bitte", "it" := "Caffè per favore", "ja" := "コーヒーをお願いします", "ko" := "커피 주세요", "zh" := "请给我咖啡"]),
    Phrase("شاي من فضلك", map["en" := "Tea please", "fr" := "Thé s'il vous plaît", "es" := "Té por favor", "de" := "Tee bitte", "it" := "Tè per favore", "ja" := "紅茶をお願いします", "ko" := "차 주세요", "zh" := "请给我茶"]),
    Phrase("hello", map["ar" := "مرحبا", "fr" := "Bonjour", "es" := "Hola", "de" := "Hallo", "it" := "Ciao", "ja" := "こんにちは", "ko" := "안녕하세요", "zh" := "你好"]),
    Phrase("hi", map["ar" := "مرحبا", "fr" := "Salut", "es" := "Hola", "de" := "Hallo", "it" := "Ciao", "ja" := "こんにちは", "ko" := "안녕하세요", "zh" := "你好"]),
    Phrase("good morning", map["ar" := "صباح الخير", "fr" := "Bonjour", "es" := "Buenos días", "de" := "Guten Morgen", "it" := "Buongiorno", "ja" := "おはようございます", "ko" := "좋은 아침", "zh" := "早上好"]),
    Phrase("good evening", map["ar" := "مساء الخير", "fr" := "Bonsoir", "es" := "Buenas tardes", "de" := "Guten Abend", "it" := "Buonasera", "ja" := "こんばんは", "ko" := "좋은 저녁", "zh" := "晚上好"]),
    Phrase("good night", map["ar" := "تصبح على خير", "fr" := "Bonne nuit", "es" := "Buenas noches", "de" := "Gute Nacht", "it" := "Buonanotte", "ja" := "おやすみなさい", "ko" := "잘 자요", "zh" := "晚安"]),
    Phrase("thank you", map["ar" := "شكرا لك", "fr" := "Merci", "es" := "Gracias", "de" := "Danke", "it" := "Grazie", "ja" := "ありがとう", "ko" := "감사합니다", "zh" := "谢谢"]),
    Phrase("thanks", map["ar" := "شكرا", "fr" := "Merci", "es" := "Gracias", "de" := "Danke", "it" := "Grazie", "ja" := "ありがとう", "ko" := "감사합니다", "zh" := "谢谢"]),
    Phrase("how are you", map["ar" := "كيف حالك", "fr" := "Comment allez-vous", "es" := "Cómo estás", "de" := "Wie geht es dir", "it" := "Come stai", "ja" := "元気ですか", "ko" := "어떻게 지내세요", "zh" := "你好吗"]),
    Phrase("please", map["ar" := "من فضلك", "fr" := "S'il vous plaît", "es" := "Por favor", "de" := "Bitte", "it" := "Per favore", "ja" := "お願いします", "ko" := "부탁합니다", "zh" := "请"]),
    Phrase("excuse me", map["ar" := "عفواً", "fr" := "Excusez-moi", "es" := "Disculpe", "de" := "Entschuldigung", "it" := "Scusi", "ja" := "すみません", "ko" := "실례합니다", "zh" := "不好意思"]),
    Phrase("sorry", map["ar" := "آسف", "fr" := "Désolé", "es" := "Lo siento", "de" := "Es tut mir leid", "it" := "Mi dispiace", "ja" := "ごめんなさい", "ko" := "죄송합니다", "zh" := "对不起"]),
    Phrase("yes", map["ar" := "نعم", "fr" := "Oui", "es" := "Sí", "de" := "Ja", "it" := "Sì", "ja" := "はい", "ko" := "네", "zh" := "是的"]),
    Phrase("no", map["ar" := "لا", "fr" := "Non", "es" := "No", "de" := "Nein", "it" := "No", "ja" := "いいえ", "ko" := "아니요", "zh" := "不"]),
    Phrase("where", map["ar" := "أين", "fr" := "Où", "es" := "Dónde", "de" := "Wo", "it" := "Dove", "ja" := "どこ", "ko" := "어디", "zh" := "哪里"]),
    Phrase("when", map["ar" := "متى", "fr" := "Quand", "es" := "Cuándo", "de" := "Wann", "it" := "Quando", "ja" := "いつ", "ko" := "언제", "zh" := "什么时候"]),
    Phrase("what", map["ar" := "ماذا", "fr" := "Quoi", "es" := "Qué", "de" := "Was", "it" := "Cosa", "ja" := "何", "ko" := "무엇", "zh" := "什么"]),
    Phrase("how", map["ar" := "كيف", "fr" := "Comment", "es" := "Cómo", "de" := "Wie", "it" := "Come", "ja" := "どのように", "ko" := "어떻게", "zh" := "怎么"]),
    Phrase("why", map["ar" := "لماذا", "fr" := "Pourquoi", "es" := "Por qué", "de" := "Warum", "it" := "Perché", "ja" := "なぜ", "ko" := "왜", "zh" := "为什么"]),
    Phrase("who", map["ar" := "من", "fr" := "Qui", "es" := "Quién", "de" := "Wer", "it" := "Chi", "ja" := "誰", "ko" := "누구", "zh" := "谁"]),
    Phrase("i want", map["ar" := "أريد", "fr" := "Je veux", "es" := "Quiero", "de" := "Ich möchte", "it" := "Voglio", "ja" := "欲しいです", "ko" := "원합니다", "zh" := "我想要"]),
    Phrase("i need", map["ar" := "أحتاج", "fr" := "J'ai besoin", "es" := "Necesito", "de" := "Ich brauche", "it" := "Ho bisogno", "ja" := "必要です", "ko" := "필요합니다", "zh" := "我需要"]),
    Phrase("i love", map["ar" := "أحب", "fr" := "J'aime", "es" := "Me gusta", "de" := "Ich liebe", "it" := "Amo", "ja" := "愛しています", "ko" := "사랑합니다", "zh" := "我爱"]),
    Phrase("i don't understand", map["ar" := "لا أفهم", "fr" := "Je ne comprends pas", "es" := "No entiendo", "de" := "Ich verstehe nicht", "it" := "Non capisco", "ja" := "分かりません", "ko" := "이해하지 못합니다", "zh" := "我不明白"]),
    Phrase("where is the hotel", map["ar" := "أين الفندق", "fr" := "Où est l'hôtel", "es" := "Dónde está el hotel", "de" := "Wo ist das Hotel", "it" := "Dov'è l'hotel", "ja" := "ホテルはどこですか", "ko" := "호텔이 어디에 있나요", "zh" := "酒店在哪里"]),
    Phrase("where is the bathroom", map["ar" := "أين الحمام", "fr" := "Où sont les toilettes", "es" := "Dónde está el baño", "de" := "Wo ist die Toilette", "it" := "Dov'è il bagno", "ja" := "トイレはどこですか", "ko" := "화장실이 어디에 있나요", "zh" := "厕所在哪里"]),
    Phrase("how much is this", map["ar" := "بكم هذا", "fr" := "Combien ça coûte", "es" := "Cuánto cuesta esto", "de" := "Wie viel kostet das", "it" := "Quanto costa", "ja" := "いくらですか", "ko" := "얼마예요", "zh" := "这个多少钱"]),
    Phrase("what time is it", map["ar" := "كم الساعة", "fr" := "Quelle heure est-il", "es" := "Qué hora es", "de" := "Wie spät ist es", "it" := "Che ore sono", "ja" := "何時ですか", "ko" := "몇 시예요", "zh" := "几点了"]),
    Phrase("where is the airport", map["ar" := "أين المطار", "fr" := "Où est l'aéroport", "es" := "Dónde está el aeropuerto", "de" := "Wo ist der Flughafen", "it" := "Dov'è l'aeroporto", "ja" := "空港はどこですか", "ko" := "공항이 어디에 있나요", "zh" := "机场在哪里"]),
    Phrase("where is the restaurant", map["ar" := "أين المطعم", "fr" := "Où est le restaurant", "es" := "Dónde está el restaurante", "de" := "Wo ist das Restaurant", "it" := "Dov'è il ristorante", "ja" := "レストランはどこですか", "ko" := "레스토랑이 어디에 있나요", "zh" := "餐厅在哪里"]),
    Phrase("the bill please", map["ar" := "الحساب من فضلك", "fr" := "L'addition s'il vous plaît", "es" := "La cuenta por favor", "de" := "Die Rechnung bitte", "it" := "Il conto per favore", "ja" := "お会計をお願いします", "ko" := "계산서 주세요", "zh" := "请结账"]),
    Phrase("i am hungry", map["ar" := "أنا جائع", "fr" := "J'ai faim", "es" := "Tengo hambre", "de" := "Ich bin hungrig", "it" := "Ho fame", "ja" := "お腹が空いています", "ko" := "배고파요", "zh" := "我饿了"]),
    Phrase("water please", map["ar" := "ماء من فضلك", "fr" := "De l'eau s'il vous plaît", "es" := "Agua por favor", "de" := "Wasser bitte", "it" := "Acqua per favore", "ja" := "水をお願いします", "ko" := "물 주세요", "zh" := "请给我水"]),
    Phrase("coffee please", map["ar" := "قهوة من فضلك", "fr" := "Café s'il vous plaît", "es" := "Café por favor", "de" := "Kaffee bitte", "it" := "Caffè per favore", "ja" := "コーヒーをお願いします", "ko" := "커피 주세요", "zh" := "请给我咖啡"])
  ]

  /** The `commonWords` object, in key order. */
  const CommonWords: seq<Phrase> := [
    Phrase("hello", map["ar" := "مرحبا", "en" := "hello"]),
    Phrase("مرحبا", map["en" := "hello", "ar" := "مرحبا"]),
    Phrase("good", map["ar" := "جيد", "en" := "good"]),
    Phrase("جيد", map["en" := "good", "ar" := "جيد"]),
    Phrase("bad", map["ar" := "سيء", "en" := "bad"]),
    Phrase("سيء", map["en" := "bad", "ar" := "سيء"]),
    Phrase("big", map["ar" := "كبير", "en" := "big"]),
    Phrase("كبير", map["en" := "big", "ar" := "كبير"]),
    Phrase("small", map["ar" := "صغير", "en" := "small"]),
    Phrase("صغير", map["en" := "small", "ar" := "صغير"]),
    Phrase("hot", map["ar" := "حار", "en" := "hot"]),
    Phrase("حار", map["en" := "hot", "ar" := "حار"]),
    Phrase("cold", map["ar" := "بارد", "en" := "cold"]),
    Phrase("بارد", map["en" := "cold", "ar" := "بارد"]),
    Phrase("new", map["ar" := "جديد", "en" := "new"]),
    Phrase("جديد", map["en" := "new", "ar" := "جديد"]),
    Phrase("old", map["ar" := "قديم", "en" := "old"]),
    Phrase("قديم", map["en" := "old", "ar" := "قديم"]),
    Phrase("fast", map["ar" := "سريع", "en" := "fast"]),
    Phrase("سريع", map["en" := "fast", "ar" := "سريع"]),
    Phrase("slow", map["ar" := "بطيء", "en" := "slow"]),
    Phrase("بطيء", map["en" := "slow", "ar" := "بطيء"])
  ]

  // ---------------------------------------------------------------------
  // The lookup stages

  /** `table[key]`: the entry with that key, if any. */
  function Find(table: seq<Phrase>, key: string): (r: Option<Phrase>)
    ensures r.Some? ==> r.value in table && r.value.key == key
    ensures r.None? ==> forall p :: p in table ==> p.key != key
  {
    if table == [] then None
    else if table[0].key == key then Some(table[0])
    else Find(table[1..], key)
  }

  /** `table[key] && table[key][lang]`, read as the text it yields. */
  function ExactHit(table: seq<Phrase>, key: string, lang: string): Option<string> {
    match Find(table, key)
    case Some(p) => if HasText(p, lang) then Some(p.values[lang]) else None
    case None => None
  }

  /** The entry the substring stage stops at: its lower-cased key occurs in the
      text and it has a text for the language. */
  predicate SubstringMatch(p: Phrase, text: string, lang: string) {
    Contains(text, Lower(p.key)) && HasText(p, lang)
  }

  /** The `for … of Object.entries(translations)` loop with its early return:
      the text of the first matching entry in table order. */
  function SubstringHit(table: seq<Phrase>, text: string, lang: string): (r: Option<string>)
    ensures r.Some? <==> exists i :: 0 <= i < |table| && SubstringMatch(table[i], text, lang)
    ensures r.Some? ==> exists i :: (0 <= i < |table| && SubstringMatch(table[i], text, lang)
      && r.value == table[i].values[lang]
      && forall j :: 0 <= j < i ==> !SubstringMatch(table[j], text, lang))
  {
    if table == [] then None
    else if SubstringMatch(table[0], text, lang) then Some(table[0].values[lang])
    else
      var r := SubstringHit(table[1..], text, lang);
      assert forall i :: 0 <= i < |table| - 1 ==> table[1..][i] == table[i + 1];
      assert r.Some? ==> exists i :: 0 <= i < |table| && SubstringMatch(table[i], text, lang) by {
        if r.Some? {
          var i :| 0 <= i < |table| - 1 && SubstringMatch(table[1..][i], text, lang);
          assert SubstringMatch(table[i + 1], text, lang);
        }
      }
      r
  }

  /** The `for … of words` loop: the first word that is a key with a text for
      the language. */
  function WordHit(table: seq<Phrase>, words: seq<string>, lang: string): Option<string> {
    if words == [] then None
    else match ExactHit(table, words[0], lang)
      case Some(v) => Some(v)
      case None => WordHit(table, words[1..], lang)
  }

  /** `text.toLowerCase().trim()`. */
  function LookupKey(text: string): string {
    Trim(Lower(text))
  }

  /** The four stages over given tables, and the text itself when all miss. */
  function LookupIn(translations: seq<Phrase>, common: seq<Phrase>, text: string, lang: string): string {
    var lowerText := LookupKey(text);
    match ExactHit(translations, lowerText, lang)
    case Some(v) => v
    case None =>
      match SubstringHit(translations, lowerText, lang)
      case Some(v) => v
      case None =>
        match WordHit(translations, Split(lowerText, ' '), lang)
        case Some(v) => v
        case None =>
          match ExactHit(common, lowerText, lang)
          case Some(v) => v
          case None => text
  }

  // ---------------------------------------------------------------------
  // Properties of the lookup

  /** The lookup key is lower-cased and trimmed. */
  lemma LookupKeyShape(text: string)
    ensures IsLowered(LookupKey(text)) && NoEdgeWhitespace(LookupKey(text))
  {
    LowerIdempotent(text);
    TrimShape(Lower(text));
    var a, b :| 0 <= a <= b <= |Lower(text)| && LookupKey(text) == Lower(text)[a..b];
    LoweredSlice(Lower(text), a, b);
  }

  /** A word of a lowered text is a substring of it and lowered itself. */
  lemma WordsOfLoweredText(text: string, w: string)
    requires IsLowered(text) && w in Split(text, ' ')
    ensures Contains(text, w) && Lower(w) == w
  {
    SplitPiecesOccur(text, ' ');
    ContainsAt(text, w);
    var i :| OccursAt(text, w, i);
    LoweredSlice(text, i, i + |w|);
  }

  /** The single-word stage never finds what the substring stage missed: a word
      that is a key is contained in the text, and being lowered it equals its
      lower-cased key. */
  lemma {:induction false} WordStageUnreachable(table: seq<Phrase>, text: string, lang: string, words: seq<string>)
    requires IsLowered(text)
    requires forall w :: w in words ==> w in Split(text, ' ')
    ensures WordHit(table, words, lang).Some? ==> SubstringHit(table, text, lang).Some?
  {
    if words != [] {
      var w := words[0];
      if ExactHit(table, w, lang).Some? {
        WordsOfLoweredText(text, w);
        var p := Find(table, w).value;
        var i :| 0 <= i < |table| && table[i] == p;
        assert SubstringMatch(table[i], text, lang);
      } else {
        WordStageUnreachable(table, text, lang, words[1..]);
      }
    }
  }

  /** Hence the lookup is exact hit, then substring hit, then common word, then
      the unchanged original text. */
  lemma LookupPrecedence(translations: seq<Phrase>, common: seq<Phrase>, text: string, lang: string)
    ensures var key := LookupKey(text);
      LookupIn(translations, common, text, lang) ==
        if ExactHit(translations, key, lang).Some? then ExactHit(translations, key, lang).value
        else if SubstringHit(translations, key, lang).Some? then SubstringHit(translations, key, lang).value
        else if ExactHit(common, key, lang).Some? then ExactHit(common, key, lang).value
        else text
  {
    var key := LookupKey(text);
    if ExactHit(translations, key, lang).None? && SubstringHit(translations, key, lang).None? {
      LookupKeyShape(text);
      WordStageUnreachable(translations, key, lang, Split(key, ' '));
    }
  }

  /** The result is the text of some table entry for the requested language,
      or the original text. */
  lemma LookupOrigin(translations: seq<Phrase>, common: seq<Phrase>, text: string, lang: string)
    ensures var r := LookupIn(translations, common, text, lang);
      r == text || exists p :: p in translations + common && HasText(p, lang) && r == p.values[lang]
  {
    LookupPrecedence(translations, common, text, lang);
    var key := LookupKey(text);
    var r := LookupIn(translations, common, text, lang);
    if ExactHit(translations, key, lang).Some? {
      var p := Find(translations, key).value;
      assert p in translations + common;
    } else if SubstringHit(translations, key, lang).Some? {
      var i :| 0 <= i < |translations| && SubstringMatch(translations[i], key, lang)
        && r == translations[i].values[lang];
      assert translations[i] in translations + common;
    } else if ExactHit(common, key, lang).Some? {
      var p := Find(common, key).value;
      assert p in translations + common;
    }
  }

  // ---------------------------------------------------------------------
  // The remote service

  /** What the remote request comes back with: a failed request (network
      failure or a response that is not `ok`), or a parsed body. */
  datatype ApiReply =
    | RequestFailed
    | Received(responseStatus: int, translatedText: Option<string>)

  /** `useRealTranslationAPI`: the body's `translatedText` when the status is
      200 and the text is truthy; an error otherwise. */
  function RemoteTranslation(reply: ApiReply): Option<string> {
    match reply
    case RequestFailed => None
    case Received(status, t) =>
      if status == 200 && t.Some? && t.value != [] then t else None
  }

  /** The remote text is used only when it is truthy and differs from the
      text sent: exactly a status-200 reply whose text is non-empty and new. */
  function AcceptedRemote(reply: ApiReply, text: string): (r: Option<string>)
    ensures r.Some? <==> (reply.Received? && reply.responseStatus == 200 && reply.translatedText.Some?
      && reply.translatedText.value != [] && reply.translatedText.value != text)
    ensures r.Some? ==> r == reply.translatedText
  {
    match RemoteTranslation(reply)
    case Some(t) => if t != [] && t != text then Some(t) else None
    case None => None
  }

  /** The source language of the request: detected when `auto` is selected. */
  function RequestSource(text: string, sourceLang: string): (r: string)
    ensures r != "auto"
    ensures sourceLang != "auto" ==> r == sourceLang
    ensures sourceLang == "auto" ==> r in LanguageDetection.DetectableCodes
  {
    if sourceLang == "auto" then
      LanguageDetection.DetectedUnfold(text);
      LanguageDetection.Detected(text)
    else sourceLang
  }

  /** `mockTranslateAPI` over its two tables (`Translations` and
      `CommonWords` on the page), given the reply to its remote request: the
      accepted remote text, otherwise the text of a table entry for the target
      language, otherwise the text itself. */
  function MockTranslate(translations: seq<Phrase>, common: seq<Phrase>, text: string, targetLang: string,
                         reply: ApiReply): (r: string)
    ensures AcceptedRemote(reply, text).Some? ==> r == AcceptedRemote(reply, text).value && r != text
    ensures AcceptedRemote(reply, text).None? ==>
      r == text || exists p :: p in translations + common && HasText(p, targetLang) && r == p.values[targetLang]
  {
    match AcceptedRemote(reply, text)
    case Some(t) => t
    case None =>
      LookupOrigin(translations, common, text, targetLang);
      LookupIn(translations, common, text, targetLang)
  }
}
