/** The built-in defaults of the mural. */
module Constants {
  import opened Wrappers
  import opened JsValue
  import opened Types

  const DefaultVideoUrls: seq<Value> :=
    [Str("https://videos.pexels.com/video-files/3209828/3209828-hd_1280_720_25fps.mp4")]

  const DefaultLayoutOrder: Value := Arr([Str("ongoing"), Str("open"), Str("video"), Str("news")])

  const DefaultFooterSettings: map<string, Value> := map[
    "showLogo" := Bool(true),
    "showClock" := Bool(true),
    "logoUrl" := Str("https://upload.wikimedia.org/wikipedia/commons/5/5a/Sistema_Fecom%C3%A9rcio_MG_Sesc_Senac.svg"),
    "forceWhiteLogo" := Bool(true)]

  const DefaultOpenEnrollmentsCarousel: map<string, Value> := map["speed" := Num(12), "transition" := Str("slide")]

  const DefaultNewsCarousel: map<string, Value> := map["speed" := Num(7), "transition" := Str("slide")]

  const DefaultSettings: Settings :=
    Settings(DefaultLayoutOrder, DefaultFooterSettings, DefaultOpenEnrollmentsCarousel, DefaultNewsCarousel)

  const OpenEnrollmentsCourses: seq<OpenEnrollment> := [
    OpenEnrollment(Some("1"), "Técnico em Programação de Jogos Digitais", 1000, "01/08/2024", "01/12/2025", "19:00 - 22:00", "https://www.senac.br/cursos/jogos-digitais", Available),
    OpenEnrollment(Some("2"), "Técnico em Redes de Computadores", 1000, "15/08/2024", "15/12/2025", "14:00 - 17:00", "https://www.senac.br/cursos/redes-computadores", Few),
    OpenEnrollment(Some("3"), "Web Designer", 240, "05/09/2024", "10/12/2024", "09:00 - 12:00", "https://www.senac.br/cursos/web-designer", Available),
    OpenEnrollment(Some("4"), "Marketing de Conteúdo para Mídias Sociais", 40, "10/09/2024", "25/09/2024", "19:00 - 22:00", "https://www.senac.br/cursos/marketing-conteudo", Few),
    OpenEnrollment(Some("5"), "Técnico em Enfermagem", 1800, "02/08/2024", "02/08/2026", "08:00 - 12:00", "https://www.senac.br/cursos/enfermagem", Available),
    OpenEnrollment(Some("6"), "Cibersegurança", 160, "20/08/2024", "30/11/2024", "19:00 - 22:00", "https://www.senac.br/cursos/ciberseguranca", Filled)
  ]

  const OngoingCoursesData: seq<Course> := [
    Course(Some("101"), "Sala 101", "Design Gráfico", "A", [Schedule(1, "08:00", "12:00"), Schedule(3, "08:00", "12:00")]),
    Course(Some("102"), "Sala 102", "Téc. Enfermagem", "A", [Schedule(1, "08:00", "12:00"), Schedule(2, "08:00", "12:00"), Schedule(4, "08:00", "12:00")]),
    Course(Some("103"), "Sala 201", "Gestão de Pessoas", "B", [Schedule(5, "09:00", "11:00")]),
    Course(Some("201"), "Sala 103", "Logística", "B", [Schedule(2, "14:00", "17:00"), Schedule(4, "14:00", "17:00")]),
    Course(Some("202"), "Sala 202", "Excel Avançado", "C", [Schedule(1, "13:30", "17:30"), Schedule(3, "13:30", "17:30")]),
    Course(Some("203"), "Sala 203", "Redes de Comp.", "A", [Schedule(1, "14:00", "17:00"), Schedule(2, "14:00", "17:00"), Schedule(3, "14:00", "17:00")]),
    Course(Some("301"), "Sala 101", "Inglês Interm.", "A", [Schedule(1, "19:00", "22:00"), Schedule(3, "19:00", "22:00")]),
    Course(Some("302"), "Sala 102", "Prog. de Jogos", "B", [Schedule(2, "19:00", "22:00"), Schedule(4, "19:00", "22:00")]),
    Course(Some("303"), "Sala 201", "Cibersegurança", "C", [Schedule(1, "18:30", "22:30")]),
    Course(Some("304"), "Sala 204", "Marketing Digital", "C", [Schedule(5, "19:00", "21:00")])
  ]

  const NewsItemsData: seq<NewsItem> := [
    NewsItem("n1", "Inscrições Abertas para o Vestibular 2024/2", "Não perca a chance de estudar no Senac. Inscreva-se já e transforme seu futuro profissional.", false, None),
    NewsItem("n2", "Semana da Tecnologia", "Participe de palestras e workshops com grandes nomes do mercado de TI. De 15 a 19 de Agosto.", false, None),
    NewsItem("n3", "Feira de Empregabilidade", "Conecte-se com as melhores empresas da região e encontre a sua vaga dos sonhos. Dia 25 de Setembro.", false, None),
    NewsItem("n4", "AVISO URGENTE: Manutenção do Sistema", "O sistema acadêmico estará indisponível no próximo sábado para manutenções programadas.", true, None)
  ]
}
